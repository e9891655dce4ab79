/** The tree-shaped meaning of conditional inclusion, and that the line scan masks exactly what it can never process. */
module ConditionalGroups {
  import opened Sequences
  import opened PreprocessorMask

  // ----- the grammar of section 6.10 of ISO/IEC 9899:2011 -----

  type Opener = d: Directive | d.If? || d == IfDef witness IfDef
  type Continuer = d: Directive | d.Elif? || d == Else witness Else

  datatype Group = End | Line(rest: Group) | Section(first: Opener, body: Group, parts: Parts, rest: Group)
  datatype Parts = Close | Part(d: Continuer, body: Group, more: Parts)

  function Flat(g: Group): seq<Directive> {
    match g
    case End => []
    case Line(rest) => [Text] + Flat(rest)
    case Section(first, body, parts, rest) => [first] + (Flat(body) + (FlatParts(parts) + Flat(rest)))
  }

  function FlatParts(p: Parts): seq<Directive> {
    match p
    case Close => [Endif]
    case Part(d, body, more) => [d] + (Flat(body) + FlatParts(more))
  }

  /**
   Which lines are processed. Conditions are evaluated in order; of a section that is itself processed, only the first
   group whose condition holds is. A directive line counts with the text that follows it.
   */
  function Live(g: Group, cond: nat -> bool, at: nat, on: bool): seq<bool>
  {
    match g
    case End => []
    case Line(rest) => [on] + Live(rest, cond, at + 1, on)
    case Section(first, body, parts, rest) =>
      var partsAt := at + 1 + |Flat(body)|;
      [on && cond(at)] + (Live(body, cond, at + 1, on && cond(at)) +
        (LiveParts(parts, cond, partsAt, on, cond(at)) + Live(rest, cond, partsAt + |FlatParts(parts)|, on)))
  }

  function LiveParts(p: Parts, cond: nat -> bool, at: nat, on: bool, taken: bool): seq<bool>
  {
    match p
    case Close => [on]
    case Part(d, body, more) =>
      var here := on && !taken && cond(at);
      [here] + (Live(body, cond, at + 1, here) +
        LiveParts(more, cond, at + 1 + |Flat(body)|, on, taken || cond(at)))
  }

  // ----- the line-by-line meaning -----

  /** The open sections after a run of lines that starts at line `at` with `f` open. */
  function Run(f: Frames, part: seq<Directive>, at: nat): Option<Frames>
    decreases |part|
  {
    if part == [] then Some(f)
    else match Push(f, part[0], at)
      case None => None
      case Some(next) => Run(next, part[1..], at + 1)
  }

  /** For each of those lines, whether every section open after it processes its current group. */
  function Trace(f: Frames, part: seq<Directive>, cond: nat -> bool, at: nat): seq<bool>
    decreases |part|
  {
    if part == [] then []
    else match Push(f, part[0], at)
      case None => []
      case Some(next) => [Active(next, cond)] + Trace(next, part[1..], cond, at + 1)
  }

  /** From `f` to `g`, with this trace. */
  predicate Passes(f: Frames, part: seq<Directive>, cond: nat -> bool, at: nat, g: Frames, live: seq<bool>) {
    Run(f, part, at) == Some(g) && Trace(f, part, cond, at) == live
  }

  lemma {:induction false} PassesAppend(f: Frames, a: seq<Directive>, b: seq<Directive>, cond: nat -> bool, at: nat,
                                        g: Frames, h: Frames, live: seq<bool>, more: seq<bool>)
    requires Passes(f, a, cond, at, g, live) && Passes(g, b, cond, at + |a|, h, more)
    ensures Passes(f, a + b, cond, at, h, live + more)
    decreases |a|
  {
    if a == [] {
      assert a + b == b;
    } else {
      var next := Push(f, a[0], at).value;
      assert (a + b)[1..] == a[1..] + b;
      PassesAppend(next, a[1..], b, cond, at + 1, g, h, live[1..], more);
      assert live + more == [live[0]] + (live[1..] + more);
    }
  }

  lemma PassesOne(f: Frames, d: Directive, cond: nat -> bool, at: nat, g: Frames)
    requires Push(f, d, at) == Some(g)
    ensures Passes(f, [d], cond, at, g, [Active(g, cond)])
  {
    assert [d][1..] == [];
  }

  lemma PassesPart(f: Frames, d: Directive, b: seq<Directive>, p: seq<Directive>, cond: nat -> bool, at: nat,
                   g: Frames, h: Frames, inside: seq<bool>, others: seq<bool>)
    requires Push(f, d, at) == Some(g)
    requires Passes(g, b, cond, at + 1, g, inside) && Passes(g, p, cond, at + 1 + |b|, h, others)
    ensures Passes(f, [d] + (b + p), cond, at, h, [Active(g, cond)] + (inside + others))
  {
    PassesOne(f, d, cond, at, g);
    PassesAppend(g, b, p, cond, at + 1, g, h, inside, others);
    PassesAppend(f, [d], b + p, cond, at, g, h, [Active(g, cond)], inside + others);
  }

  lemma PassesSection(f: Frames, d: Directive, b: seq<Directive>, p: seq<Directive>, r: seq<Directive>,
                      cond: nat -> bool, at: nat, g: Frames, inside: seq<bool>, others: seq<bool>, rest: seq<bool>)
    requires Push(f, d, at) == Some(g)
    requires Passes(g, b, cond, at + 1, g, inside) && Passes(g, p, cond, at + 1 + |b|, f, others)
    requires Passes(f, r, cond, at + 1 + |b| + |p|, f, rest)
    ensures Passes(f, [d] + (b + (p + r)), cond, at, f, [Active(g, cond)] + (inside + (others + rest)))
  {
    PassesAppend(g, p, r, cond, at + 1 + |b|, f, f, others, rest);
    PassesPart(f, d, b, p + r, cond, at, g, f, inside, others + rest);
  }

  lemma ActiveAppend(f: Frames, section: seq<nat>, cond: nat -> bool)
    ensures Active(f + [section], cond) <==> Active(f, cond) && Processed(section, cond)
  {
    var more := f + [section];
    assert more[|f|] == section;
    assert forall i :: 0 <= i < |f| ==> more[i] == f[i];
  }

  predicate Chosen(section: seq<nat>, cond: nat -> bool) { exists i :: 0 <= i < |section| && cond(section[i]) }

  lemma NextProcessed(section: seq<nat>, k: nat, cond: nat -> bool)
    ensures Processed(section + [k], cond) <==> !Chosen(section, cond) && cond(k)
    ensures Chosen(section + [k], cond) <==> Chosen(section, cond) || cond(k)
  {
    var more := section + [k];
    assert more[|section|] == k;
    assert forall i :: 0 <= i < |section| ==> more[i] == section[i];
    if i :| 0 <= i < |section| && cond(section[i]) { assert cond(more[i]); }
  }

  lemma Opening(f: Frames, d: Opener, cond: nat -> bool, at: nat)
    ensures Push(f, d, at) == Some(f + [[at]])
    ensures Active(f + [[at]], cond) == (Active(f, cond) && cond(at)) && Chosen([at], cond) == cond(at)
  {
    NextProcessed([], at, cond);
    assert [] + [at] == [at];
    ActiveAppend(f, [at], cond);
  }

  lemma Next(f: Frames, section: seq<nat>, d: Continuer, cond: nat -> bool, at: nat)
    ensures Push(f + [section], d, at) == Some(f + [section + [at]])
    ensures Active(f + [section + [at]], cond) == (Active(f, cond) && !Chosen(section, cond) && cond(at))
    ensures Chosen(section + [at], cond) == (Chosen(section, cond) || cond(at))
  {
    assert (f + [section])[..|f|] == f;
    NextProcessed(section, at, cond);
    ActiveAppend(f, section + [at], cond);
  }

  lemma Closing(f: Frames, section: seq<nat>, at: nat)
    ensures Push(f + [section], Endif, at) == Some(f)
  {
    assert (f + [section])[..|f|] == f;
  }

  /** The lines of a group leave the open sections as they were, and are traced as the group's meaning says. */
  lemma {:induction false} GroupPasses(g: Group, f: Frames, cond: nat -> bool, at: nat)
    ensures Passes(f, Flat(g), cond, at, f, Live(g, cond, at, Active(f, cond)))
    decreases g, 1
  {
    match g {
      case End =>
      case Line(rest) =>
        var on := Active(f, cond);
        GroupPasses(rest, f, cond, at + 1);
        PassesOne(f, Text, cond, at, f);
        PassesAppend(f, [Text], Flat(rest), cond, at, f, f, [on], Live(rest, cond, at + 1, on));
      case Section(_, _, _, _) =>
        SectionPasses(g, f, cond, at);
    }
  }

  lemma {:induction false} SectionPasses(g: Group, f: Frames, cond: nat -> bool, at: nat)
    requires g.Section?
    ensures Passes(f, Flat(g), cond, at, f, Live(g, cond, at, Active(f, cond)))
    decreases g, 0
  {
    var b, p, r := Flat(g.body), FlatParts(g.parts), Flat(g.rest);
    var partsAt, restAt := at + 1 + |b|, at + 1 + |b| + |p|;
    var on := Active(f, cond);
    Opening(f, g.first, cond, at);
    GroupPasses(g.body, f + [[at]], cond, at + 1);
    var inside := Live(g.body, cond, at + 1, on && cond(at));
    PartsPass(g.parts, f, [at], cond, partsAt);
    var others := LiveParts(g.parts, cond, partsAt, on, cond(at));
    GroupPasses(g.rest, f, cond, restAt);
    var rest := Live(g.rest, cond, restAt, on);
    PassesSection(f, g.first, b, p, r, cond, at, f + [[at]], inside, others, rest);
    assert Live(g, cond, at, on) == [on && cond(at)] + (inside + (others + rest));
  }

  lemma {:induction false} PartsPass(p: Parts, f: Frames, section: seq<nat>, cond: nat -> bool, at: nat)
    ensures Passes(f + [section], FlatParts(p), cond, at, f, LiveParts(p, cond, at, Active(f, cond), Chosen(section, cond)))
    decreases p, 1
  {
    match p {
      case Close =>
        Closing(f, section, at);
        PassesOne(f + [section], Endif, cond, at, f);
      case Part(d, body, more) =>
        var on, taken := Active(f, cond), Chosen(section, cond);
        var inner := f + [section + [at]];
        Next(f, section, d, cond, at);
        var moreAt := at + 1 + |Flat(body)|;
        GroupPasses(body, inner, cond, at + 1);
        PartsPass(more, f, section + [at], cond, moreAt);
        PassesPart(f + [section], d, Flat(body), FlatParts(more), cond, at, inner, f,
                   Live(body, cond, at + 1, on && !taken && cond(at)),
                   LiveParts(more, cond, moreAt, on, taken || cond(at)));
    }
  }

  /** The trace of the rest of a file, read off the sections open after each line. */
  lemma {:induction false} TraceIs(ds: seq<Directive>, cond: nat -> bool, k: nat, f: Frames, i: nat)
    requires k <= |ds| && After(ds, k) == Some(f)
    ensures Run(f, ds[k..], k) == After(ds, |ds|)
    ensures Run(f, ds[k..], k).Some? ==> |Trace(f, ds[k..], cond, k)| == |ds| - k
    ensures Run(f, ds[k..], k).Some? && k <= i < |ds| ==>
              After(ds, i + 1).Some? && Trace(f, ds[k..], cond, k)[i - k] == Active(After(ds, i + 1).value, cond)
    decreases |ds| - k
  {
    if k < |ds| {
      var part := ds[k..];
      assert part[0] == ds[k] && part[1..] == ds[k + 1..];
      if Push(f, ds[k], k).None? {
        AfterNone(ds, k + 1, |ds|);
      } else {
        TraceIs(ds, cond, k + 1, Push(f, ds[k], k).value, i);
      }
    }
  }

  // ----- balanced directives are exactly the trees -----

  predicate Continues(d: Directive) { d.Elif? || d == Else || d == Endif }

  predicate Stopped(rest: seq<Directive>) { rest == [] || Continues(rest[0]) }

  /** Running out of lines with more sections open than at the start. */
  predicate LeftOpen(f: Frames, part: seq<Directive>, at: nat) {
    Run(f, part, at).Some? && |Run(f, part, at).value| > |f|
  }

  lemma {:induction false} RunAppend(f: Frames, a: seq<Directive>, b: seq<Directive>, at: nat, g: Frames)
    requires Run(f, a, at) == Some(g)
    ensures Run(f, a + b, at) == Run(g, b, at + |a|)
    decreases |a|
  {
    if a == [] {
      assert a + b == b;
    } else {
      assert (a + b)[1..] == a[1..] + b;
      RunAppend(Push(f, a[0], at).value, a[1..], b, at + 1, g);
    }
  }

  lemma GroupRuns(g: Group, f: Frames, at: nat)
    ensures Run(f, Flat(g), at) == Some(f)
  {
    GroupPasses(g, f, (k: nat) => false, at);
  }

  lemma PartsRun(p: Parts, f: Frames, section: seq<nat>, at: nat)
    ensures Run(f + [section], FlatParts(p), at) == Some(f)
  {
    PartsPass(p, f, section, (k: nat) => false, at);
  }

  /** The longest group at the start of `part`, or the proof that a section opened in it is never closed. */
  lemma {:induction false} ParseGroup(part: seq<Directive>, f: Frames, at: nat)
    returns (r: Option<Group>, rest: seq<Directive>)
    ensures if r.Some? then part == Flat(r.value) + rest && Stopped(rest) else LeftOpen(f, part, at)
    decreases |part|, 0
  {
    r, rest := None, [];
    if Stopped(part) {
      return Some(End), part;
    }
    var d, tail := part[0], part[1..];
    assert part == [d] + tail;
    if d == Text {
      r, rest := ParseGroup(tail, f, at + 1);
      if r.Some? { r := Some(Line(r.value)); }
    } else {
      r, rest := ParseSection(d, tail, f, at);
    }
  }

  lemma Regroup(d: Directive, b: seq<Directive>, p: seq<Directive>, r: seq<Directive>, rest: seq<Directive>)
    ensures [d] + (b + (p + (r + rest))) == [d] + (b + (p + r)) + rest
  {
  }

  lemma {:induction false} ParseSection(d: Opener, tail: seq<Directive>, f: Frames, at: nat)
    returns (r: Option<Group>, rest: seq<Directive>)
    ensures if r.Some? then [d] + tail == Flat(r.value) + rest && Stopped(rest) else LeftOpen(f, [d] + tail, at)
    decreases |tail|, 2
  {
    r, rest := None, [];
    assert ([d] + tail)[1..] == tail;
    var body, rest1 := ParseGroup(tail, f + [[at]], at + 1);
    if body.None? { return; }
    var b := Flat(body.value);
    GroupRuns(body.value, f + [[at]], at + 1);
    RunAppend(f + [[at]], b, rest1, at + 1, f + [[at]]);
    var parts, rest2 := ParseParts(rest1, f, [at], at + 1 + |b|);
    if parts.None? { return; }
    var p := FlatParts(parts.value);
    PartsRun(parts.value, f, [at], at + 1 + |b|);
    RunAppend(f + [[at]], p, rest2, at + 1 + |b|, f);
    var g, rest3 := ParseGroup(rest2, f, at + 1 + |b| + |p|);
    if g.None? { return; }
    r, rest := Some(Section(d, body.value, parts.value, g.value)), rest3;
    Regroup(d, b, p, Flat(g.value), rest3);
  }

  lemma {:induction false} ParseParts(part: seq<Directive>, f: Frames, section: seq<nat>, at: nat)
    returns (r: Option<Parts>, rest: seq<Directive>)
    requires Stopped(part)
    ensures if r.Some? then part == FlatParts(r.value) + rest
            else Run(f + [section], part, at).Some? && |Run(f + [section], part, at).value| > |f|
    decreases |part|, 1
  {
    r, rest := None, [];
    if part == [] { return; }
    var d, tail := part[0], part[1..];
    assert part == [d] + tail;
    if d == Endif {
      return Some(Close), tail;
    }
    Next(f, section, d, (k: nat) => false, at);
    var inner := f + [section + [at]];
    var body, rest1 := ParseGroup(tail, inner, at + 1);
    if body.None? { return; }
    var b := Flat(body.value);
    GroupRuns(body.value, inner, at + 1);
    RunAppend(inner, b, rest1, at + 1, inner);
    var more, rest2 := ParseParts(rest1, f, section + [at], at + 1 + |b|);
    if more.None? { return; }
    r, rest := Some(Part(d, body.value, more.value)), rest2;
    Regroup(d, b, FlatParts(more.value), [], rest2);
    assert FlatParts(more.value) + [] == FlatParts(more.value) && [] + rest2 == rest2;
  }

  /** The directives that the scan accepts are exactly those of a group of the grammar. */
  lemma BalancedIffGroup(ds: seq<Directive>)
    ensures After(ds, |ds|) == Some([]) <==> exists g :: Flat(g) == ds
  {
    TraceIs(ds, (k: nat) => false, 0, [], 0);
    assert ds[0..] == ds;
    if g :| Flat(g) == ds {
      GroupRuns(g, [], 0);
    }
    if After(ds, |ds|) == Some([]) {
      var r, rest := ParseGroup(ds, [], 0);
      GroupRuns(r.value, [], 0);
      RunAppend([], Flat(r.value), rest, 0, []);
      assert Flat(r.value) == ds;
    }
  }

  lemma LiveAt(g: Group, cond: nat -> bool, k: nat)
    requires k < |Flat(g)|
    ensures After(Flat(g), |Flat(g)|) == Some([]) && After(Flat(g), k + 1).Some?
    ensures |Live(g, cond, 0, true)| == |Flat(g)|
    ensures Active(After(Flat(g), k + 1).value, cond) == Live(g, cond, 0, true)[k]
  {
    GroupPasses(g, [], cond, 0);
    TraceIs(Flat(g), cond, 0, [], k);
    assert Flat(g)[0..] == Flat(g);
  }

  /** Some choice of the conditions that respects the literal ones processes the line. */
  ghost predicate CanLive(g: Group, k: nat) {
    exists cond :: Consistent(Flat(g), cond) && k < |Live(g, cond, 0, true)| && Live(g, cond, 0, true)[k]
  }

  /** Sound and exact: of a file with this group structure, the scan keeps the #endif lines and the lines that can live. */
  lemma KeptIffLive(g: Group, k: nat)
    requires k < |Flat(g)|
    ensures After(Flat(g), |Flat(g)|) == Some([]) && After(Flat(g), k + 1).Some?
    ensures Kept(Flat(g), k) <==> Flat(g)[k] == Endif || CanLive(g, k)
  {
    var ds := Flat(g);
    LiveAt(g, (j: nat) => false, k);
    if cond :| Consistent(ds, cond) && Active(After(ds, k + 1).value, cond) {
      LiveAt(g, cond, k);
    }
    if CanLive(g, k) {
      var cond :| Consistent(ds, cond) && k < |Live(g, cond, 0, true)| && Live(g, cond, 0, true)[k];
      LiveAt(g, cond, k);
    }
  }
}
