/** Comma-separated LSM lists: the one splitting they all mean, and what a token of a list is. */
module LsmList {
  import opened Sequences

  const Sandbox: string := "abk_ksu_sandbox"

  function IsComma(): char -> bool { (c: char) => c == ',' }

  predicate CommaFree(s: string) { forall i :: 0 <= i < |s| ==> s[i] != ',' }

  function TokenEnd(s: string): (e: nat)
    ensures e <= |s| && CommaFree(s[..e]) && (e < |s| ==> s[e] == ',')
    ensures forall i :: 0 <= i < e ==> s[i] != ','
  {
    var e := FirstIndex(s, IsComma());
    assert forall j :: 0 <= j < e ==> !IsComma()(s[j]);
    e
  }

  /** The tokens of a list, as str.split(",") yields them. */
  function Split(s: string): (ts: seq<string>)
    ensures |ts| > 0
    ensures forall t :: t in ts ==> CommaFree(t)
    decreases |s|
  {
    var e := TokenEnd(s);
    if e == |s| then
      assert s[..e] == s;
      [s]
    else [s[..e]] + Split(s[e + 1..])
  }

  function Join(ts: seq<string>): string {
    if ts == [] then "" else if |ts| == 1 then ts[0] else ts[0] + "," + Join(ts[1..])
  }

  /** The first comma of a string is where its comma-free head ends. */
  lemma TokenEndIs(s: string, e: nat)
    requires e <= |s| && (forall i :: 0 <= i < e ==> s[i] != ',') && (e < |s| ==> s[e] == ',')
    ensures TokenEnd(s) == e
  {
  }

  lemma {:induction false} SplitConcat(a: string, b: string)
    ensures Split(a + "," + b) == Split(a) + Split(b)
    decreases |a|
  {
    var s := a + "," + b;
    var e := TokenEnd(a);
    assert s[..e] == a[..e];
    assert s[e] == ',';
    TokenEndIs(s, e);
    if e == |a| {
      assert s[e + 1..] == b;
      assert s[..e] == a;
    } else {
      assert s[e + 1..] == a[e + 1..] + "," + b;
      SplitConcat(a[e + 1..], b);
      assert Split(s) == [a[..e]] + (Split(a[e + 1..]) + Split(b));
    }
  }

  /** Splitting undoes joining. */
  lemma {:induction false} SplitJoin(ts: seq<string>)
    requires ts != [] && forall t :: t in ts ==> CommaFree(t)
    ensures Split(Join(ts)) == ts
    decreases |ts|
  {
    assert ts[0] in ts;
    if |ts| == 1 {
      SplitOne(ts[0]);
    } else {
      assert forall t :: t in ts[1..] ==> t in ts;
      SplitConcat(ts[0], Join(ts[1..]));
      SplitOne(ts[0]);
      SplitJoin(ts[1..]);
    }
  }

  lemma SplitOne(t: string)
    requires CommaFree(t)
    ensures Split(t) == [t]
  {
    TokenEndIs(t, |t|);
  }

  /** Joining undoes splitting. */
  lemma {:induction false} JoinSplit(s: string)
    ensures Join(Split(s)) == s
    decreases |s|
  {
    var e := TokenEnd(s);
    if e < |s| {
      JoinSplit(s[e + 1..]);
      assert Split(s)[1..] == Split(s[e + 1..]);
      assert s == s[..e] + "," + s[e + 1..];
    }
  }

  /** Appending a token, as both "${x:+$x,}$token" and the list itself do. */
  lemma {:induction false} JoinAppend(ts: seq<string>, t: string)
    ensures Join(ts + [t]) == if ts == [] then t else Join(ts) + "," + t
    decreases |ts|
  {
    if |ts| > 1 {
      assert (ts + [t])[1..] == ts[1..] + [t];
      JoinAppend(ts[1..], t);
    } else if |ts| == 1 {
      assert (ts + [t])[1..] == [t];
    }
  }

  // ----- tokens by position -----

  /** The name stands at `p` with a boundary on both sides. */
  predicate TokenAt(s: string, p: nat, name: string) {
    && p + |name| <= |s| && s[p..p + |name|] == name
    && (p == 0 || s[p - 1] == ',')
    && (p + |name| == |s| || s[p + |name|] == ',')
  }

  lemma TokenAtHead(s: string, name: string)
    requires CommaFree(name)
    ensures TokenAt(s, 0, name) <==> name == s[..TokenEnd(s)]
  {
    var e := TokenEnd(s);
    if TokenAt(s, 0, name) {
      assert forall i :: 0 <= i < |name| ==> name[i] == s[i];
      assert |name| == e;
    }
  }

  lemma SliceOfTail(s: string, from: nat, p: nat, n: nat)
    requires from <= p && p + n <= |s|
    ensures s[from..][p - from..p - from + n] == s[p..p + n]
  {
  }

  lemma TokenAtTail(s: string, p: nat, name: string)
    requires CommaFree(name) && p > 0
    ensures TokenAt(s, p, name) <==>
            TokenEnd(s) < |s| && p >= TokenEnd(s) + 1 && TokenAt(s[TokenEnd(s) + 1..], p - TokenEnd(s) - 1, name)
  {
    var e := TokenEnd(s);
    assert TokenAt(s, p, name) ==> e <= p - 1;
    if e < |s| && p >= e + 1 {
      if p + |name| <= |s| { SliceOfTail(s, e + 1, p, |name|); }
    }
  }

  lemma {:induction false} TokenInSplit(s: string, p: nat, name: string)
    requires CommaFree(name) && TokenAt(s, p, name)
    ensures name in Split(s)
    decreases |s|
  {
    var e := TokenEnd(s);
    if p == 0 {
      TokenAtHead(s, name);
      assert Split(s)[0] == s[..e];
    } else {
      TokenAtTail(s, p, name);
      TokenInSplit(s[e + 1..], p - e - 1, name);
    }
  }

  lemma {:induction false} SplitHasToken(s: string, name: string) returns (p: nat)
    requires CommaFree(name) && name in Split(s)
    ensures TokenAt(s, p, name)
    decreases |s|
  {
    var e := TokenEnd(s);
    assert s[..|s|] == s;
    if name == s[..e] {
      TokenAtHead(s, name);
      p := 0;
    } else {
      var q := SplitHasToken(s[e + 1..], name);
      p := q + e + 1;
      TokenAtTail(s, p, name);
    }
  }

  /** Being delimited somewhere is being one of the tokens. */
  lemma TokenIffInSplit(s: string, name: string)
    requires CommaFree(name)
    ensures (exists p: nat :: TokenAt(s, p, name)) <==> name in Split(s)
  {
    if p: nat :| TokenAt(s, p, name) {
      TokenInSplit(s, p, name);
    }
    if name in Split(s) {
      var p := SplitHasToken(s, name);
    }
  }

  // ----- what a safe order is -----

  predicate Distinct(ts: seq<string>) { forall i, j :: 0 <= i < j < |ts| ==> ts[i] != ts[j] }

  /** The documented order: no empty or repeated entry, and the sandbox last, or before a final ksu where allowed. */
  predicate SafeTokens(ts: seq<string>, allowKsuTail: bool)
    requires |ts| > 0
  {
    && (forall i :: 0 <= i < |ts| ==> ts[i] != "")
    && Distinct(ts)
    && (ts[|ts| - 1] == Sandbox ||
        (allowKsuTail && |ts| > 1 && ts[|ts| - 1] == "ksu" && ts[|ts| - 2] == Sandbox))
  }

  predicate SafeOrder(s: string, allowKsuTail: bool) { SafeTokens(Split(s), allowKsuTail) }
}
