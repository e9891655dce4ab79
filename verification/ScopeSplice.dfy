/** The function scope an anchor selects, and replacing live text inside it. */
module ScopeSplice {
  import opened Sequences
  import opened PreprocessorMask
  import opened BraceScopes

  datatype SpliceError = AnchorNotFound | Unbalanced | ScopeNotFound | NotOnce | Conditionals(error: MaskError)

  // ----- occurrences -----

  /** The non-overlapping occurrences from `from`, leftmost first. */
  function Occurrences(s: string, part: string, from: nat): (ps: seq<nat>)
    requires part != "" && from <= |s|
    ensures forall p :: p in ps ==> p >= from && OccursAt(s, p, part)
    decreases |s| - from
  {
    match Find(s, from, part)
    case None => []
    case Some(p) => [p] + Occurrences(s, part, p + |part|)
  }

  lemma NextOccurrence(s: string, part: string, from: nat, ps: seq<nat>)
    requires part != "" && from <= |s| && Find(s, from, part).Some?
    ensures var p := Find(s, from, part).value;
            ps + Occurrences(s, part, from) == (ps + [p]) + Occurrences(s, part, p + |part|)
  {
  }

  method FindAll(s: string, part: string) returns (ps: seq<nat>)
    requires part != ""
    ensures ps == Occurrences(s, part, 0)
  {
    ghost var all := Occurrences(s, part, 0);
    ps := [];
    var cursor := 0;
    while true
      invariant cursor <= |s| && all == ps + Occurrences(s, part, cursor)
      decreases |s| - cursor
    {
      var p := Find(s, cursor, part);
      if p.None? {
        return;
      }
      NextOccurrence(s, part, cursor, ps);
      ps := ps + [p.value];
      cursor := p.value + |part|;
    }
  }

  /** The only place for a part, up to overlapping itself: what count(part) == 1 and index(part) mean. */
  ghost predicate OnlyAt(s: string, part: string, p: nat) {
    OccursAt(s, p, part) && forall q: nat :: OccursAt(s, q, part) ==> p <= q < p + |part|
  }

  lemma CountedOnce(s: string, part: string, p: nat)
    requires part != ""
    ensures Occurrences(s, part, 0) == [p] <==> OnlyAt(s, part, p)
  {
    var first := Find(s, 0, part);
    if first.Some? {
      var next := first.value + |part|;
      var second := Find(s, next, part);
      if OnlyAt(s, part, p) {
        assert first.value == p;
        assert second.None?;
      }
    }
  }

  // ----- the scope of an occurrence -----

  ghost predicate Inside(m: string, at: nat) { exists c: nat, d: nat :: Matched(m, c, d) && c < at < d }

  /** The first brace from the occurrence on, with no statement end between the anchor of length `n` and it. */
  predicate BodyAt(m: string, at: nat, n: nat, a: nat) {
    && at <= a < |m| && m[a] == '{' && (forall k :: at <= k < a ==> m[k] != '{')
    && forall k :: at + n <= k < a ==> m[k] != ';'
  }

  /** The leftmost pair around the occurrence if there is one, else the body that follows it. */
  ghost predicate Selects(m: string, at: nat, n: nat, p: (nat, nat)) {
    && Matched(m, p.0, p.1)
    && if Inside(m, at) then
         p.0 < at < p.1 && forall c: nat, d: nat :: Matched(m, c, d) && c < at < d ==> p.0 <= c
       else BodyAt(m, at, n, p.0)
  }

  lemma SelectsOne(m: string, at: nat, n: nat, p: (nat, nat), q: (nat, nat))
    requires Selects(m, at, n, p) && Selects(m, at, n, q)
    ensures p == q
  {
    assert p.0 == q.0;
    PairsNest(m, p.0, p.1, q.0, q.1);
  }

  /** No matched pair encloses the selected one. */
  lemma SelectedIsOutermost(m: string, at: nat, n: nat, p: (nat, nat))
    requires Selects(m, at, n, p)
    ensures Outermost(m, p.0, p.1)
  {
    forall c: nat, d: nat | c <= p.0 && p.1 <= d && Matched(m, c, d) ensures c == p.0 && d == p.1 {
      if c == p.0 {
        PairsNest(m, c, d, p.0, p.1);
      }
    }
  }

  method CandidateOf(m: string, pairs: seq<(nat, nat)>, at: nat, n: nat) returns (r: Option<(nat, nat)>)
    requires at + n <= |m| && n > 0 && forall p: (nat, nat) :: p in pairs <==> Matched(m, p.0, p.1)
    ensures r.Some? ==> Selects(m, at, n, r.value)
    ensures r.None? ==> forall p :: !Selects(m, at, n, p)
  {
    r := None;
    for i := 0 to |pairs|
      invariant r.Some? ==> r.value in pairs && r.value.0 < at < r.value.1
      invariant forall j :: 0 <= j < i && pairs[j].0 < at < pairs[j].1 ==> r.Some? && r.value.0 <= pairs[j].0
    {
      if pairs[i].0 < at < pairs[i].1 && (r.None? || pairs[i].0 < r.value.0) {
        r := Some(pairs[i]);
      }
    }
    if r.Some? {
      assert Matched(m, r.value.0, r.value.1);
      forall c: nat, d: nat | Matched(m, c, d) && c < at < d ensures r.value.0 <= c {
        assert (c, d) in pairs;
      }
      return;
    }
    assert !Inside(m, at) by {
      assert forall c: nat, d: nat :: Matched(m, c, d) ==> (c, d) in pairs;
    }
    var body := BodyBrace(m, at, n);
    if body.Some? {
      for i := 0 to |pairs|
        invariant forall j :: 0 <= j < i ==> pairs[j].0 != body.value
      {
        if pairs[i].0 == body.value {
          assert pairs[i] in pairs;
          return Some(pairs[i]);
        }
      }
    }
    assert forall p :: Selects(m, at, n, p) ==> p in pairs;
  }

  lemma FindChar(m: string, from: nat, c: char)
    requires from <= |m|
    ensures var p := Find(m, from, [c]);
            && (p.Some? ==> from <= p.value < |m| && m[p.value] == c && forall k :: from <= k < p.value ==> m[k] != c)
            && (p.None? ==> forall k :: from <= k < |m| ==> m[k] != c)
  {
    forall k | from <= k < |m| ensures OccursAt(m, k, [c]) <==> m[k] == c {
      assert m[k..k + 1] == [m[k]];
    }
  }

  /** The brace of the body: inside the anchor, or after it unless a semicolon comes first. */
  method BodyBrace(m: string, at: nat, n: nat) returns (r: Option<nat>)
    requires at + n <= |m|
    ensures forall a: nat :: r == Some(a) <==> BodyAt(m, at, n, a)
  {
    FindChar(m, at, '{');
    var inAnchor := Find(m, at, ['{']);
    if inAnchor.Some? && inAnchor.value < at + n {
      return inAnchor;
    }
    FindChar(m, at + n, '{');
    FindChar(m, at + n, ';');
    var brace := Find(m, at + n, ['{']);
    var semicolon := Find(m, at + n, [';']);
    if brace.None? || (semicolon.Some? && semicolon.value < brace.value) {
      return None;
    }
    return brace;
  }

  // ----- c_scope_bounds -----

  predicate AllClosed(m: string) {
    forall a :: 0 <= a < |m| && m[a] == '{' ==> exists b: nat :: b < |m| && Matched(m, a, b)
  }

  ghost predicate Candidate(m: string, anchor: string, p: (nat, nat))
    requires anchor != ""
  {
    exists at :: at in Occurrences(m, anchor, 0) && Selects(m, at, |anchor|, p)
  }

  /** The braces balance and all occurrences of the anchor select this one scope, those that select any. */
  ghost predicate Bounds(m: string, anchor: string, scope: (nat, nat))
    requires anchor != ""
  {
    AllClosed(m) && forall p: (nat, nat) :: Candidate(m, anchor, p) <==> p == scope
  }

  lemma SingletonSet<T>(s: set<T>, x: T)
    requires |s| == 1 && x in s
    ensures s == {x}
  {
    assert |s - {x}| == 0;
  }

  /** The candidates of all occurrences. */
  method Candidates(m: string, anchor: string, pairs: seq<(nat, nat)>, occurrences: seq<nat>)
    returns (candidates: set<(nat, nat)>)
    requires anchor != "" && occurrences == Occurrences(m, anchor, 0)
    requires forall p: (nat, nat) :: p in pairs <==> Matched(m, p.0, p.1)
    ensures forall p: (nat, nat) :: p in candidates <==> Candidate(m, anchor, p)
  {
    candidates := {};
    for i := 0 to |occurrences|
      invariant forall p: (nat, nat) :: p in candidates <==>
                  exists j :: 0 <= j < i && Selects(m, occurrences[j], |anchor|, p)
    {
      assert occurrences[i] in occurrences;
      var c := CandidateOf(m, pairs, occurrences[i], |anchor|);
      ghost var before := candidates;
      if c.Some? {
        candidates := candidates + {c.value};
      }
      forall p: (nat, nat)
        ensures p in candidates <==> exists j :: 0 <= j < i + 1 && Selects(m, occurrences[j], |anchor|, p)
      {
        if Selects(m, occurrences[i], |anchor|, p) {
          SelectsOne(m, occurrences[i], |anchor|, p, c.value);
        }
        if p in before {
          var j :| 0 <= j < i && Selects(m, occurrences[j], |anchor|, p);
        }
      }
    }
  }

  /** c_scope_bounds on the masked text, for a non-empty anchor. */
  method ScopeBounds(m: string, anchor: string) returns (r: Result<(nat, nat), SpliceError>)
    requires anchor != ""
    ensures r.Ok? ==> Bounds(m, anchor, r.value) && Outermost(m, r.value.0, r.value.1)
    ensures r.Err? ==> forall scope :: !Bounds(m, anchor, scope)
    ensures r == Err(AnchorNotFound) <==> !Contains(m, anchor)
    ensures r == Err(Unbalanced) <==> Contains(m, anchor) && !AllClosed(m)
  {
    var occurrences := FindAll(m, anchor);
    if occurrences == [] {
      assert forall scope :: Bounds(m, anchor, scope) ==> Candidate(m, anchor, scope);
      return Err(AnchorNotFound);
    }
    assert OccursAt(m, occurrences[0], anchor);
    var pairs, closed := MatchBraces(m);
    if !closed {
      return Err(Unbalanced);
    }
    var candidates := Candidates(m, anchor, pairs, occurrences);
    if |candidates| != 1 {
      assert forall scope :: Bounds(m, anchor, scope) ==> candidates == {scope};
      return Err(ScopeNotFound);
    }
    var scope :| scope in candidates;
    SingletonSet(candidates, scope);
    ghost var at :| at in Occurrences(m, anchor, 0) && Selects(m, at, |anchor|, scope);
    SelectedIsOutermost(m, at, |anchor|, scope);
    return Ok(scope);
  }

  // ----- mask_c_live_code -----

  /** A lexer that blanks comments, or comments and literals, in place. */
  ghost predicate Blanker(blank: string -> string) { forall s :: BlankedFrom(blank(s), s) }

  lemma BlankedLines(lexical: string, text: string)
    requires BlankedFrom(lexical, text)
    ensures |Lines(text)| == |Lines(lexical)|
  {
    AlignedLines(text, lexical);
  }

  /**
   mask_c_live_code: it fails exactly on unbalanced directives; otherwise the lines that no consistent choice keeps are
   blanked first, and then `blank` blanks in what is left.
   */
  method MaskLive(text: string, blankAll: string -> string, blank: string -> string) returns (r: Result<string, MaskError>)
    requires Blanker(blankAll) && Blanker(blank)
    ensures var ds := Classified(Lines(blankAll(text)));
            && (r.Ok? <==> After(ds, |ds|) == Some([]))
            && (r.Ok? ==> exists active: string :: MaskedLines(active, text, ds) && r.value == blank(active))
    ensures r.Ok? ==> BlankedFrom(r.value, text)
  {
    BlankedLines(blankAll(text), text);
    var active := MaskInactive(text, blankAll(text));
    match active {
      case Ok(out) =>
        OutputAligned(text, blankAll(text));
        assert BlankedFrom(blank(out), out);
        return Ok(blank(out));
      case Err(e) => return Err(e);
    }
  }

  // ----- replace_live_in_scope -----

  /** What the splice needs of a mask: where it succeeds, it only blanks, as MaskLive does. */
  type Mask = string -> Result<string, MaskError>

  ghost predicate Masks(mask: Mask) { forall s :: mask(s).Ok? ==> BlankedFrom(mask(s).value, s) }

  /** The live part of a text selects this scope. */
  ghost predicate ScopeOf(text: string, anchor: string, mask: Mask, scope: (nat, nat))
    requires anchor != ""
  {
    scope.0 <= scope.1 < |text| && mask(text).Ok? && Bounds(mask(text).value, anchor, scope)
  }

  /** The one place of the target in the live part of a scope. */
  ghost predicate PlaceIn(part: string, target: string, mask: Mask, q: nat) {
    mask(part).Ok? && target != "" && OnlyAt(mask(part).value, target, q)
  }

  /** The window that replace_live_in_scope finds: `whole` masks the text, `code` the scope but not its literals. */
  ghost predicate Replaces(text: string, anchor: string, target: string, whole: Mask, code: Mask, scope: (nat, nat), p: nat)
    requires anchor != ""
  {
    && ScopeOf(text, anchor, whole, scope) && scope.0 <= p
    && PlaceIn(text[scope.0..scope.1 + 1], target, code, p - scope.0)
  }

  /** Where a part of the live text stands, the text differs from it only where the part has a blank. */
  lemma BlankedPart(live: string, text: string, part: string, q: nat)
    requires BlankedFrom(live, text) && OccursAt(live, q, part)
    ensures q + |part| <= |text|
    ensures forall i :: 0 <= i < |part| ==> text[q + i] == part[i] || (part[i] == ' ' && text[q + i] != '\n')
  {
    var piece := live[q..q + |part|];
    forall i | 0 <= i < |part|
      ensures text[q + i] == part[i] || (part[i] == ' ' && text[q + i] != '\n')
    {
      assert piece[i] == live[q + i];
    }
  }

  /** The window lies in the scope, and there the text is the target up to what was blanked. */
  lemma WindowAgrees(text: string, anchor: string, target: string, whole: Mask, code: Mask, scope: (nat, nat), p: nat)
    requires anchor != "" && Masks(code) && Replaces(text, anchor, target, whole, code, scope, p)
    ensures scope.0 <= p && p + |target| <= scope.1 + 1 <= |text|
    ensures forall i :: 0 <= i < |target| ==> text[p + i] == target[i] || (target[i] == ' ' && text[p + i] != '\n')
  {
    var (part, q) := (text[scope.0..scope.1 + 1], p - scope.0);
    BlankedPart(code(part).value, part, target, q);
    forall i | 0 <= i < |target|
      ensures text[p + i] == target[i] || (target[i] == ' ' && text[p + i] != '\n')
    {
      assert part[q + i] == text[p + i];
    }
  }

  lemma OneScope(m: string, anchor: string, scope: (nat, nat), scope': (nat, nat))
    requires anchor != "" && Bounds(m, anchor, scope) && Bounds(m, anchor, scope')
    ensures scope == scope'
  {
    assert Candidate(m, anchor, scope);
  }

  /** There is at most one window. */
  lemma WindowOnce(text: string, anchor: string, target: string, whole: Mask, code: Mask,
                   scope: (nat, nat), p: nat, scope': (nat, nat), p': nat)
    requires anchor != "" && Replaces(text, anchor, target, whole, code, scope, p)
    requires Replaces(text, anchor, target, whole, code, scope', p')
    ensures scope == scope' && p == p'
  {
    OneScope(whole(text).value, anchor, scope, scope');
  }

  /**
   replace_live_in_scope: it succeeds exactly when there is such a window; the result then has the replacement in its
   place, and before and after it the text as it was.
   */
  method ReplaceLiveInScope(text: string, anchor: string, target: string, replacement: string, whole: Mask, code: Mask)
    returns (r: Result<string, SpliceError>)
    requires anchor != "" && Masks(whole) && Masks(code)
    ensures r.Ok? ==> exists scope: (nat, nat), p: nat ::
              && Replaces(text, anchor, target, whole, code, scope, p)
              && p + |target| <= |text| && |r.value| == |text| - |target| + |replacement|
              && r.value[..p] == text[..p] && r.value[p..p + |replacement|] == replacement
              && r.value[p + |replacement|..] == text[p + |target|..]
    ensures r.Err? ==> forall scope: (nat, nat), p: nat :: !Replaces(text, anchor, target, whole, code, scope, p)
  {
    var masked := whole(text);
    if masked.Err? {
      return Err(Conditionals(masked.error));
    }
    var bounds := ScopeBounds(masked.value, anchor);
    if bounds.Err? {
      return Err(bounds.error);
    }
    var (start, end) := bounds.value;
    forall scope | Bounds(masked.value, anchor, scope) ensures scope == (start, end) {
      OneScope(masked.value, anchor, scope, bounds.value);
    }
    var live := code(text[start..end + 1]);
    if live.Err? {
      return Err(Conditionals(live.error));
    }
    var place := FindOnce(live.value, target);
    if place.None? {
      return Err(NotOnce);
    }
    var p := start + place.value;
    assert Replaces(text, anchor, target, whole, code, bounds.value, p);
    WindowAgrees(text, anchor, target, whole, code, bounds.value, p);
    return Ok(text[..p] + replacement + text[p + |target|..]);
  }

  /** count(part) == 1, then index(part); an empty part is counted more than once in any scope. */
  method FindOnce(s: string, part: string) returns (r: Option<nat>)
    ensures r.Some? ==> part != "" && OnlyAt(s, part, r.value)
    ensures r.None? ==> part == "" || forall p: nat :: !OnlyAt(s, part, p)
  {
    if part == "" {
      return None;
    }
    var places := FindAll(s, part);
    forall p: nat ensures places == [p] <==> OnlyAt(s, part, p) { CountedOnce(s, part, p); }
    if |places| == 1 {
      assert places == [places[0]];
      return Some(places[0]);
    }
    return None;
  }
}
