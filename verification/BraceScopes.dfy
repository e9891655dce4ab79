/** Matching braces, the function scope an anchor selects, and replacing live text inside it. */
module BraceScopes {
  // ----- matched pairs -----

  /** Opening minus closing braces in m[a..k]. */
  function Net(m: string, a: nat, k: nat): int
    requires a <= k <= |m|
  {
    if k == a then 0
    else Net(m, a, k - 1) + (if m[k - 1] == '{' then 1 else if m[k - 1] == '}' then -1 else 0)
  }

  /** Still inside the brace at `a`: no prefix from it is balanced yet. */
  predicate OpenTo(m: string, a: nat, i: nat)
    requires i <= |m|
  {
    a < i && m[a] == '{' && forall k :: a < k <= i ==> Net(m, a, k) >= 1
  }

  /** `b` is the first position at which the brace at `a` is balanced. */
  predicate Matched(m: string, a: nat, b: nat) { b < |m| && OpenTo(m, a, b) && Net(m, a, b + 1) == 0 }

  ghost predicate Outermost(m: string, a: nat, b: nat) {
    Matched(m, a, b) && forall c: nat, d: nat :: c <= a && b <= d && Matched(m, c, d) ==> c == a && d == b
  }

  lemma {:induction false} NetSplit(m: string, a: nat, c: nat, k: nat)
    requires a <= c <= k <= |m|
    ensures Net(m, a, k) == Net(m, a, c) + Net(m, c, k)
    decreases k
  {
    if c < k { NetSplit(m, a, c, k - 1); }
  }

  /** Matched pairs never cross. */
  lemma PairsNest(m: string, a: nat, b: nat, c: nat, d: nat)
    requires Matched(m, a, b) && Matched(m, c, d) && a <= c <= b
    ensures if a == c then b == d else d < b
  {
    if a < c {
      NetSplit(m, a, c, b + 1);
    }
  }

  /** What the stack holds: the braces still open before `i`, each with those above it unclosed. */
  predicate Stacked(m: string, stack: seq<nat>, i: nat)
    requires i <= |m|
  {
    forall j :: 0 <= j < |stack| ==> OpenTo(m, stack[j], i) && Net(m, stack[j], i) == |stack| - j
  }

  ghost predicate Accounted(m: string, stack: seq<nat>, pairs: seq<(nat, nat)>, i: nat)
    requires i <= |m|
  {
    && (forall a :: 0 <= a < i && m[a] == '{' ==> a in stack || exists b: nat :: b < i && Matched(m, a, b))
    && (forall p: (nat, nat) :: p in pairs <==> p.1 < i && Matched(m, p.0, p.1))
  }

  lemma OpenGrows(m: string, a: nat, i: nat)
    requires i < |m| && OpenTo(m, a, i) && Net(m, a, i + 1) >= 1
    ensures OpenTo(m, a, i + 1)
  {
  }

  /** A pair that ends at `i` starts at the top of the stack. */
  lemma ClosesTop(m: string, stack: seq<nat>, pairs: seq<(nat, nat)>, i: nat, a: nat)
    requires i < |m| && Stacked(m, stack, i) && Accounted(m, stack, pairs, i) && Matched(m, a, i)
    ensures m[i] == '}' && stack != [] && a == stack[|stack| - 1]
  {
    if b: nat :| b < i && Matched(m, a, b) {
      PairsNest(m, a, i, a, b);
    }
  }

  lemma NextStacked(m: string, stack: seq<nat>, pairs: seq<(nat, nat)>, i: nat)
    requires i < |m| && Stacked(m, stack, i) && Accounted(m, stack, pairs, i) && m[i] != '}' && m[i] != '{'
    ensures Stacked(m, stack, i + 1) && Accounted(m, stack, pairs, i + 1)
  {
    forall j | 0 <= j < |stack| ensures OpenTo(m, stack[j], i + 1) && Net(m, stack[j], i + 1) == |stack| - j {
      OpenGrows(m, stack[j], i);
    }
    forall a: nat | Matched(m, a, i) ensures false { ClosesTop(m, stack, pairs, i, a); }
  }

  lemma PushStacked(m: string, stack: seq<nat>, pairs: seq<(nat, nat)>, i: nat)
    requires i < |m| && Stacked(m, stack, i) && Accounted(m, stack, pairs, i) && m[i] == '{'
    ensures Stacked(m, stack + [i], i + 1) && Accounted(m, stack + [i], pairs, i + 1)
  {
    var more := stack + [i];
    forall j | 0 <= j < |more| ensures OpenTo(m, more[j], i + 1) && Net(m, more[j], i + 1) == |more| - j {
      if j < |stack| { OpenGrows(m, stack[j], i); }
    }
    forall a: nat | Matched(m, a, i) ensures false { ClosesTop(m, stack, pairs, i, a); }
    assert more[|stack|] == i;
    assert forall x :: x in stack ==> x in more;
  }

  lemma PopStacked(m: string, stack: seq<nat>, pairs: seq<(nat, nat)>, i: nat)
    requires i < |m| && Stacked(m, stack, i) && Accounted(m, stack, pairs, i) && m[i] == '}' && stack != []
    ensures var (rest, top) := (stack[..|stack| - 1], stack[|stack| - 1]);
            Stacked(m, rest, i + 1) && Accounted(m, rest, pairs + [(top, i)], i + 1)
  {
    var (rest, top) := (stack[..|stack| - 1], stack[|stack| - 1]);
    var more := pairs + [(top, i)];
    assert Matched(m, top, i);
    forall j | 0 <= j < |rest| ensures OpenTo(m, rest[j], i + 1) && Net(m, rest[j], i + 1) == |rest| - j {
      assert OpenTo(m, stack[j], i);
      OpenGrows(m, stack[j], i);
    }
    forall a: nat | Matched(m, a, i) ensures a == top { ClosesTop(m, stack, pairs, i, a); }
    forall p: (nat, nat) ensures p in more <==> p.1 < i + 1 && Matched(m, p.0, p.1) {
      if p in more && p !in pairs { assert p == (top, i); }
      assert more[|pairs|] == (top, i);
    }
    assert forall x :: x in stack ==> x in rest || x == top;
  }

  lemma SkipStacked(m: string, pairs: seq<(nat, nat)>, i: nat)
    requires i < |m| && Accounted(m, [], pairs, i) && m[i] == '}'
    ensures Accounted(m, [], pairs, i + 1)
  {
    forall a: nat | Matched(m, a, i) ensures false { ClosesTop(m, [], pairs, i, a); }
  }

  /** The stack loop of c_scope_bounds finds exactly the matched pairs; stray closing braces are ignored. */
  method MatchBraces(m: string) returns (pairs: seq<(nat, nat)>, closed: bool)
    ensures forall p: (nat, nat) :: p in pairs <==> Matched(m, p.0, p.1)
    ensures closed <==> forall a :: 0 <= a < |m| && m[a] == '{' ==> exists b: nat :: b < |m| && Matched(m, a, b)
  {
    var stack: seq<nat> := [];
    pairs := [];
    for i := 0 to |m|
      invariant Stacked(m, stack, i) && Accounted(m, stack, pairs, i)
    {
      if m[i] == '{' {
        PushStacked(m, stack, pairs, i);
        stack := stack + [i];
      } else if m[i] == '}' {
        if stack != [] {
          PopStacked(m, stack, pairs, i);
          pairs := pairs + [(stack[|stack| - 1], i)];
          stack := stack[..|stack| - 1];
        } else {
          SkipStacked(m, pairs, i);
        }
      } else {
        NextStacked(m, stack, pairs, i);
      }
    }
    closed := stack == [];
    if !closed {
      var a := stack[0];
      assert OpenTo(m, a, |m|);
      assert forall b: nat :: b < |m| ==> !Matched(m, a, b);
    }
  }
}
