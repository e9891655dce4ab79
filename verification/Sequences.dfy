/** Counting over sequences, and the option and result types shared by all modules. */
module Sequences {

  datatype Option<+T> = None | Some(value: T)

  datatype Result<+T, +E> = Ok(value: T) | Err(error: E)

  /** The index of the first element that satisfies `p`, or `|s|` when there is none. */
  function FirstIndex<T>(s: seq<T>, p: T -> bool): (i: nat)
    ensures i <= |s|
    ensures i < |s| ==> p(s[i])
    ensures forall j :: 0 <= j < i ==> !p(s[j])
  {
    if s == [] || p(s[0]) then 0 else FirstIndex(s[1..], p) + 1
  }

  /** `FirstIndex` is the only index with its three properties. */
  lemma FirstIndexUnique<T>(s: seq<T>, p: T -> bool, i: nat)
    requires i <= |s|
    requires i < |s| ==> p(s[i])
    requires forall j :: 0 <= j < i ==> !p(s[j])
    ensures FirstIndex(s, p) == i
  {
    var k := FirstIndex(s, p);
    if k < i {
      assert false;
    } else if i < k {
      assert false;
    }
  }

  /** The sum of `f` over the elements of `s`. */
  function Sum<T>(f: T -> nat, s: seq<T>): nat {
    if s == [] then 0 else f(s[0]) + Sum(f, s[1..])
  }

  lemma {:induction false} SumUpdate<T>(f: T -> nat, s: seq<T>, i: nat, x: T)
    requires i < |s|
    ensures Sum(f, s[i := x]) + f(s[i]) == Sum(f, s) + f(x)
    decreases |s|
  {
    if i == 0 {
      assert s[0 := x][1..] == s[1..];
    } else {
      assert s[i := x][1..] == s[1..][i - 1 := x];
      SumUpdate(f, s[1..], i - 1, x);
    }
  }

  /** Pigeonhole: weights of at most one that do not add up to the length leave an element of weight zero. */
  lemma {:induction false} SumPigeonhole<T>(f: T -> nat, s: seq<T>)
    requires forall x :: x in s ==> f(x) <= 1
    ensures Sum(f, s) <= |s|
    ensures Sum(f, s) < |s| <==> exists i :: 0 <= i < |s| && f(s[i]) == 0
    decreases |s|
  {
    if s != [] {
      assert s[0] in s;
      forall x | x in s[1..] ensures f(x) <= 1 { assert x in s; }
      SumPigeonhole(f, s[1..]);
      if i :| 0 <= i < |s[1..]| && f(s[1..][i]) == 0 { assert f(s[i + 1]) == 0; }
      if i :| 0 <= i < |s| && f(s[i]) == 0 {
        if i > 0 { assert f(s[1..][i - 1]) == 0; }
      }
    }
  }

  /** One element's share never exceeds the sum. */
  lemma {:induction false} SumAtLeast<T>(f: T -> nat, s: seq<T>, i: nat)
    requires i < |s|
    ensures f(s[i]) <= Sum(f, s)
    decreases |s|
  {
    if i > 0 {
      SumAtLeast(f, s[1..], i - 1);
    }
  }

  /** The union, with multiplicity, of what every element of `s` holds. */
  function Total<T, V>(f: T -> multiset<V>, s: seq<T>): multiset<V> {
    if s == [] then multiset{} else f(s[0]) + Total(f, s[1..])
  }

  lemma {:induction false} TotalUpdate<T, V>(f: T -> multiset<V>, s: seq<T>, i: nat, x: T)
    requires i < |s|
    ensures Total(f, s[i := x]) + f(s[i]) == Total(f, s) + f(x)
    decreases |s|
  {
    if i == 0 {
      assert s[0 := x][1..] == s[1..];
    } else {
      var tail := s[1..];
      assert s[i := x][1..] == tail[i - 1 := x];
      TotalUpdate(f, tail, i - 1, x);
      var rest := Total(f, tail[i - 1 := x]);
      assert Total(f, s[i := x]) == f(s[0]) + rest;
      assert Total(f, s) == f(s[0]) + Total(f, tail);
      assert f(s[0]) + rest + f(s[i]) == f(s[0]) + (rest + f(s[i]));
      assert f(s[0]) + Total(f, tail) + f(x) == f(s[0]) + (Total(f, tail) + f(x));
    }
  }

  lemma {:induction false} TotalAppend<T, V>(f: T -> multiset<V>, s: seq<T>, x: T)
    ensures Total(f, s + [x]) == Total(f, s) + f(x)
    decreases |s|
  {
    if s == [] {
      assert s + [x] == [x];
    } else {
      assert (s + [x])[1..] == s[1..] + [x];
      TotalAppend(f, s[1..], x);
    }
  }

  lemma {:induction false} TotalPointwise<T, V>(f: T -> multiset<V>, s: seq<T>, t: seq<T>)
    requires |s| == |t|
    requires forall i :: 0 <= i < |s| ==> f(s[i]) == f(t[i])
    ensures Total(f, s) == Total(f, t)
    decreases |s|
  {
    if s != [] {
      assert f(s[0]) == f(t[0]);
      forall i | 0 <= i < |s[1..]| ensures f(s[1..][i]) == f(t[1..][i]) {
        assert f(s[i + 1]) == f(t[i + 1]);
      }
      TotalPointwise(f, s[1..], t[1..]);
    }
  }

  /** A value is in the total exactly when some element holds it. */
  lemma {:induction false} TotalMember<T, V>(f: T -> multiset<V>, s: seq<T>, v: V)
    ensures v in Total(f, s) <==> exists i :: 0 <= i < |s| && v in f(s[i])
    decreases |s|
  {
    if s != [] {
      TotalMember(f, s[1..], v);
      if v in f(s[0]) {
        assert v in Total(f, s);
      } else if v in Total(f, s[1..]) {
        var i :| 0 <= i < |s[1..]| && v in f(s[1..][i]);
        assert v in f(s[i + 1]);
      }
      if i :| 0 <= i < |s| && v in f(s[i]) {
        if i > 0 { assert v in f(s[1..][i - 1]); }
      }
    }
  }

  lemma {:induction false} TotalEmpty<T, V>(f: T -> multiset<V>, s: seq<T>)
    requires forall i :: 0 <= i < |s| ==> f(s[i]) == multiset{}
    ensures Total(f, s) == multiset{}
    decreases |s|
  {
    if s != [] {
      assert f(s[0]) == multiset{};
      forall i | 0 <= i < |s[1..]| ensures f(s[1..][i]) == multiset{} {
        assert f(s[i + 1]) == multiset{};
      }
      TotalEmpty(f, s[1..]);
    }
  }

  lemma {:induction false} TotalAtLeast<T, V>(f: T -> multiset<V>, s: seq<T>, i: nat)
    requires i < |s|
    ensures f(s[i]) <= Total(f, s)
    decreases |s|
  {
    if i > 0 {
      TotalAtLeast(f, s[1..], i - 1);
      assert f(s[i]) <= Total(f, s[1..]);
    }
  }

  // ----- strings -----

  /** A buffer whose only terminator is its last element, so no read in bounds goes past it. */
  predicate CString(buf: seq<char>) {
    |buf| > 0 && buf[|buf| - 1] == '\0' && forall i :: 0 <= i < |buf| - 1 ==> buf[i] != '\0'
  }

  function Text(buf: seq<char>): string
    requires CString(buf)
  {
    buf[..|buf| - 1]
  }

  predicate OccursAt(s: string, p: nat, part: string) { p + |part| <= |s| && s[p..p + |part|] == part }

  ghost predicate Contains(s: string, part: string) { exists p: nat :: OccursAt(s, p, part) }

  /** The first occurrence at or after `from`, as strstr and str.find yield it. */
  function Find(s: string, from: nat, part: string): (p: Option<nat>)
    requires from <= |s|
    ensures p.Some? ==> from <= p.value && OccursAt(s, p.value, part)
    ensures forall q: nat :: from <= q && OccursAt(s, q, part) ==> p.Some? && p.value <= q
    decreases |s| - from
  {
    if OccursAt(s, from, part) then Some(from)
    else if from == |s| then None
    else Find(s, from + 1, part)
  }
}
