/** The two C readers of an LSM list: the order check with its nested cursors, and the membership test. */
module LsmScanner {
  import opened Sequences
  import opened LsmList

  lemma SliceText(buf: seq<char>, i: nat, j: nat)
    requires CString(buf) && i <= j < |buf|
    ensures buf[i..j] == Text(buf)[i..j]
  {
  }

  /** The position of the next comma or terminator. */
  method ScanToken(buf: seq<char>, cursor: nat) returns (end: nat)
    requires CString(buf) && cursor < |buf|
    ensures cursor <= end < |buf|
    ensures forall i :: cursor <= i < end ==> buf[i] != ','
    ensures if end == |buf| - 1 then buf[end] == '\0' else buf[end] == ','
  {
    end := cursor;
    while buf[end] != '\0' && buf[end] != ','
      invariant cursor <= end < |buf|
      invariant forall i :: cursor <= i < end ==> buf[i] != ','
      decreases |buf| - end
    {
      end := end + 1;
    }
  }

  /** abk_lsm_token_equals. */
  method TokenEquals(buf: seq<char>, token: nat, length: nat, name: seq<char>) returns (equal: bool)
    requires token + length <= |buf| && CString(name)
    ensures equal == (buf[token..token + length] == Text(name))
  {
    var index := 0;
    while index < length
      invariant index <= length && index <= |name| - 1
      invariant forall i :: 0 <= i < index ==> buf[token + i] == name[i]
    {
      if name[index] == '\0' || buf[token + index] != name[index] {
        assert |Text(name)| == length ==> buf[token..token + length][index] != Text(name)[index];
        return false;
      }
      index := index + 1;
    }
    equal := name[length] == '\0';
    assert equal ==> buf[token..token + length] == Text(name);
  }

  /** abk_lsm_tokens_equal. */
  method TokensEqual(buf: seq<char>, left: nat, leftLength: nat, right: nat, rightLength: nat) returns (equal: bool)
    requires left + leftLength <= |buf| && right + rightLength <= |buf|
    ensures equal == (buf[left..left + leftLength] == buf[right..right + rightLength])
  {
    if leftLength != rightLength {
      return false;
    }
    var index := 0;
    while index < leftLength
      invariant index <= leftLength
      invariant buf[left..left + index] == buf[right..right + index]
    {
      if buf[left + index] != buf[right + index] {
        assert buf[left..left + leftLength][index] != buf[right..right + rightLength][index];
        return false;
      }
      assert buf[left..left + index + 1] == buf[left..left + index] + [buf[left + index]];
      assert buf[right..right + index + 1] == buf[right..right + index] + [buf[right + index]];
      index := index + 1;
    }
    return true;
  }

  /** How often a token occurs. */
  function Count(ts: seq<string>, t: string): nat {
    if ts == [] then 0 else Count(ts[..|ts| - 1], t) + if ts[|ts| - 1] == t then 1 else 0
  }

  lemma {:induction false} CountDistinct(ts: seq<string>, t: string)
    requires Distinct(ts)
    ensures Count(ts, t) == if t in ts then 1 else 0
    decreases |ts|
  {
    if ts != [] {
      var (front, last) := (ts[..|ts| - 1], ts[|ts| - 1]);
      assert ts == front + [last];
      CountDistinct(front, t);
    }
  }

  /** The scan position: the tokens before the cursor have been read off. */
  ghost predicate Read(s: string, cursor: nat, done: seq<string>) {
    && cursor <= |s|
    && (if cursor == 0 then done == [] else s[cursor - 1] == ',' && Split(s[..cursor - 1]) == done)
  }

  /** Reading one more token either ends the list or moves past a comma. */
  lemma ReadOn(s: string, cursor: nat, end: nat, done: seq<string>)
    requires Read(s, cursor, done) && cursor <= end <= |s|
    requires forall i :: cursor <= i < end ==> s[i] != ','
    requires end < |s| ==> s[end] == ','
    ensures Split(s[..end]) == done + [s[cursor..end]]
    ensures end < |s| ==> Read(s, end + 1, done + [s[cursor..end]])
  {
    var token := s[cursor..end];
    assert CommaFree(token);
    SplitOne(token);
    if cursor == 0 {
      assert s[..end] == token;
    } else {
      assert s[..end] == s[..cursor - 1] + "," + token;
      SplitConcat(s[..cursor - 1], token);
    }
    if end < |s| {
      assert s[..end + 1 - 1] == s[..end];
    }
  }

  /** The inner loop: is the token at the cursor one of those already read? */
  method Repeats(buf: seq<char>, cursor: nat, end: nat, ghost done: seq<string>) returns (repeated: bool)
    requires CString(buf) && cursor <= end < |buf| && Read(Text(buf), cursor, done)
    ensures repeated == (buf[cursor..end] in done)
  {
    ghost var s := Text(buf);
    var prior := 0;
    ghost var seen: seq<string> := [];
    while prior < cursor
      invariant prior <= cursor
      invariant Read(s, prior, seen)
      invariant seen <= done
      invariant prior == cursor ==> seen == done
      invariant buf[cursor..end] !in seen
    {
      var priorEnd := ScanToken(buf, prior);
      assert buf[cursor - 1] == ',';
      assert priorEnd <= cursor - 1;
      ReadOn(s, prior, priorEnd, seen);
      SliceText(buf, prior, priorEnd);
      SeenPrefix(s, priorEnd, cursor, seen + [s[prior..priorEnd]], done);
      var equal := TokensEqual(buf, prior, priorEnd - prior, cursor, end - cursor);
      if equal {
        assert buf[cursor..end] == (seen + [s[prior..priorEnd]])[|seen|];
        return true;
      }
      seen := seen + [s[prior..priorEnd]];
      prior := priorEnd + 1;
    }
    return false;
  }

  /** What has been read up to an earlier comma is a prefix of what was read up to the cursor. */
  lemma SeenPrefix(s: string, end: nat, cursor: nat, seen: seq<string>, done: seq<string>)
    requires Read(s, cursor, done) && 0 <= end < cursor && s[end] == ',' && Split(s[..end]) == seen
    ensures seen <= done
    ensures end + 1 == cursor ==> seen == done
  {
    if end + 1 < cursor {
      var rest := s[end + 1..cursor - 1];
      assert s[..cursor - 1] == s[..end] + "," + rest;
      SplitConcat(s[..end], rest);
    }
  }

  /** The tokens read so far are the first tokens of the whole list, and all of them at its end. */
  lemma Advance(s: string, cursor: nat, end: nat, done: seq<string>)
    requires Read(s, cursor, done) && cursor <= end <= |s|
    requires forall i :: cursor <= i < end ==> s[i] != ','
    requires end < |s| ==> s[end] == ','
    ensures end < |s| ==> Read(s, end + 1, done + [s[cursor..end]])
    ensures end == |s| ==> Split(s) == done + [s[cursor..end]]
    ensures |Split(s)| > |done| && Split(s)[|done|] == s[cursor..end]
    ensures forall j :: 0 <= j < |done| ==> Split(s)[j] == done[j]
  {
    ReadOn(s, cursor, end, done);
    if end < |s| {
      var (head, tail) := (s[..end], s[end + 1..]);
      assert s == head + "," + tail;
      SplitConcat(head, tail);
      assert Split(s) == done + [s[cursor..end]] + Split(tail);
    } else {
      assert s[..end] == s;
    }
  }

  /** What the scan knows after the last token: how often two names occurred, and where they stood last. */
  ghost predicate Tallied(ts: seq<string>, first: string, second: string, firstCount: nat, secondCount: nat,
                          previous: bool, last: bool, lastSecond: bool) {
    && ts != []
    && firstCount == Count(ts, first) && secondCount == Count(ts, second)
    && last == (ts[|ts| - 1] == first) && lastSecond == (ts[|ts| - 1] == second)
    && previous == (|ts| > 1 && ts[|ts| - 2] == first)
  }

  lemma TalliedStep(ts: seq<string>, t: string, first: string, second: string, firstCount: nat, secondCount: nat, last: bool)
    requires firstCount == Count(ts, first) && secondCount == Count(ts, second)
    requires last == (ts != [] && ts[|ts| - 1] == first)
    ensures Tallied(ts + [t], first, second, firstCount + (if t == first then 1 else 0),
                    secondCount + (if t == second then 1 else 0), last, t == first, t == second)
  {
    assert (ts + [t])[..|ts|] == ts;
    assert ts != [] ==> (ts + [t])[|ts| - 1] == ts[|ts| - 1];
  }

  /** With distinct non-empty tokens the tallies decide the order. */
  lemma TallyDecides(ts: seq<string>, sandboxCount: nat, ksuCount: nat, previous: bool, last: bool, ksu: bool, allowKsuTail: bool)
    requires Tallied(ts, Sandbox, "ksu", sandboxCount, ksuCount, previous, last, ksu)
    requires WellFormed(ts)
    ensures SafeTokens(ts, allowKsuTail) <==>
            sandboxCount == 1 && ksuCount <= 1 && (last || (allowKsuTail && ksu && previous && ksuCount == 1))
  {
    CountDistinct(ts, Sandbox);
    CountDistinct(ts, "ksu");
    assert ts[|ts| - 1] in ts;
    assert |ts| > 1 ==> ts[|ts| - 2] in ts;
  }

  predicate WellFormed(ts: seq<string>) { Distinct(ts) && forall i :: 0 <= i < |ts| ==> ts[i] != "" }

  lemma EmptyToken(ts: seq<string>, i: nat)
    requires i < |ts| && ts[i] == ""
    ensures !WellFormed(ts)
  {
  }

  lemma RepeatedToken(ts: seq<string>, done: seq<string>, token: string)
    requires |done| < |ts| && ts[|done|] == token && token in done && forall j :: 0 <= j < |done| ==> ts[j] == done[j]
    ensures !WellFormed(ts)
  {
    var j :| 0 <= j < |done| && done[j] == token;
    assert ts[j] == ts[|done|];
  }

  lemma FreshToken(done: seq<string>, token: string)
    requires WellFormed(done) && token != "" && token !in done
    ensures WellFormed(done + [token])
  {
  }

  /** The next token, refused when it is empty or repeats an earlier one. */
  method ScanNext(buf: seq<char>, cursor: nat, ghost done: seq<string>) returns (end: nat, acceptable: bool)
    requires CString(buf) && Read(Text(buf), cursor, done)
    ensures cursor <= end < |buf| && (buf[end] == '\0' <==> end == |buf| - 1)
    ensures acceptable <==> buf[cursor..end] != "" && buf[cursor..end] !in done
    ensures !acceptable ==> !WellFormed(Split(Text(buf)))
    ensures end < |buf| - 1 ==> Read(Text(buf), end + 1, done + [buf[cursor..end]])
    ensures end == |buf| - 1 ==> Split(Text(buf)) == done + [buf[cursor..end]]
  {
    ghost var s := Text(buf);
    end := ScanToken(buf, cursor);
    SliceText(buf, cursor, end);
    Advance(s, cursor, end, done);
    if end == cursor {
      EmptyToken(Split(s), |done|);
      return end, false;
    }
    var repeated := Repeats(buf, cursor, end, done);
    if repeated {
      RepeatedToken(Split(s), done, buf[cursor..end]);
    }
    return end, !repeated;
  }

  /** The outer loop: it stops early exactly at an empty or repeated token, and tallies the others. */
  method ScanList(buf: seq<char>, sandboxName: seq<char>, ksuName: seq<char>)
    returns (ok: bool, sandboxCount: nat, ksuCount: nat, previousIsSandbox: bool, lastIsSandbox: bool, lastIsKsu: bool)
    requires CString(buf) && CString(sandboxName) && CString(ksuName)
    ensures ok <==> WellFormed(Split(Text(buf)))
    ensures ok ==> Tallied(Split(Text(buf)), Text(sandboxName), Text(ksuName), sandboxCount, ksuCount, previousIsSandbox, lastIsSandbox, lastIsKsu)
  {
    ghost var s := Text(buf);
    ok, previousIsSandbox, lastIsSandbox, lastIsKsu := false, false, false, false;
    sandboxCount, ksuCount := 0, 0;
    var cursor := 0;
    ghost var done: seq<string> := [];
    while true
      invariant Read(s, cursor, done) && WellFormed(done)
      invariant sandboxCount == Count(done, Text(sandboxName)) && ksuCount == Count(done, Text(ksuName))
      invariant lastIsSandbox == (done != [] && done[|done| - 1] == Text(sandboxName))
      decreases |s| - cursor
    {
      var end, acceptable := ScanNext(buf, cursor, done);
      if !acceptable {
        return;
      }
      ghost var token := buf[cursor..end];
      FreshToken(done, token);
      TalliedStep(done, token, Text(sandboxName), Text(ksuName), sandboxCount, ksuCount, lastIsSandbox);
      previousIsSandbox := lastIsSandbox;
      lastIsSandbox := TokenEquals(buf, cursor, end - cursor, sandboxName);
      lastIsKsu := TokenEquals(buf, cursor, end - cursor, ksuName);
      if lastIsSandbox {
        sandboxCount := sandboxCount + 1;
      }
      if lastIsKsu {
        ksuCount := ksuCount + 1;
      }
      done := done + [token];
      if buf[end] == '\0' {
        ok := true;
        return;
      }
      cursor := end + 1;
    }
  }

  /** abk_lsm_order_is_safe: true exactly for the safe orders, for every list and a null or empty one. */
  method OrderIsSafe(list: Option<seq<char>>, allowKsuTail: bool) returns (safe: bool)
    requires list.Some? ==> CString(list.value)
    ensures safe <==> list.Some? && SafeOrder(Text(list.value), allowKsuTail)
  {
    if list.None? {
      return false;
    }
    if list.value[0] == '\0' {
      SplitOne(Text(list.value));
      return false;
    }
    var (sandboxName, ksuName) := (Sandbox + ['\0'], "ksu" + ['\0']);
    assert Text(sandboxName) == Sandbox && Text(ksuName) == "ksu";
    var ok, sandboxCount, ksuCount, previousIsSandbox, lastIsSandbox, lastIsKsu :=
      ScanList(list.value, sandboxName, ksuName);
    if !ok {
      return false;
    }
    TallyDecides(Split(Text(list.value)), sandboxCount, ksuCount, previousIsSandbox, lastIsSandbox, lastIsKsu, allowKsuTail);
    if sandboxCount != 1 || ksuCount > 1 {
      return false;
    }
    return lastIsSandbox || (allowKsuTail && lastIsKsu && previousIsSandbox && ksuCount == 1);
  }

  // ----- membership -----

  /** No token hides inside a failed match: it would have to start right after a comma of the name. */
  lemma NoTokenInside(s: string, m: nat, name: string, p: nat)
    requires CommaFree(name) && OccursAt(s, m, name) && m < p < m + |name|
    ensures !TokenAt(s, p, name)
  {
    assert s[p - 1] == s[m..m + |name|][p - 1 - m];
  }

  lemma NoTokenAnywhere(s: string, name: string)
    requires CommaFree(name) && forall p: nat :: !TokenAt(s, p, name)
    ensures name !in Split(s)
  {
    TokenIffInSplit(s, name);
  }

  /** abk_lsm_list_contains: jumping a whole name after a failed match misses no token. */
  method ListContains(list: Option<seq<char>>, name: Option<seq<char>>) returns (found: bool)
    requires list.Some? ==> CString(list.value)
    requires name.Some? ==> CString(name.value) && Text(name.value) != "" && CommaFree(Text(name.value))
    ensures found <==> list.Some? && name.Some? && Text(name.value) in Split(Text(list.value))
  {
    if list.None? || name.None? {
      return false;
    }
    var buf := list.value;
    var s := Text(buf);
    var n := Text(name.value);
    var length := |n|;
    var start := 0;
    while true
      invariant start <= |s|
      invariant forall p: nat :: TokenAt(s, p, n) ==> start <= p
      decreases |s| - start
    {
      var occurrence := Find(s, start, n);
      assert forall p: nat :: TokenAt(s, p, n) ==> OccursAt(s, p, n);
      if occurrence.None? {
        NoTokenAnywhere(s, n);
        return false;
      }
      var m := occurrence.value;
      if (m == 0 || buf[m - 1] == ',') && (buf[m + length] == '\0' || buf[m + length] == ',') {
        TokenInSplit(s, m, n);
        return true;
      }
      forall p: nat | TokenAt(s, p, n) ensures m + length <= p {
        if m < p < m + length { NoTokenInside(s, m, n, p); }
      }
      start := m + length;
    }
  }
}
