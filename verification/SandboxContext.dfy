/** SELinux contexts of sandboxes: printing into bounded buffers, and parsing at the third colon. */
module SandboxContext {
  import opened Sequences
  import opened Credentials
  import opened IntegerTruth

  datatype Errno = Einval | Enametoolong

  const DomainPrefix: string := "anybase_kernel_sandbox_"
  const UntrustedPrefix: string := "untrusted_app"
  const TypeSize: nat := 64
  const ContextSize: nat := 128
  const MlsLimit: nat := 96

  // ----- characters -----

  /** isalnum over the kernel's Latin-1 table. */
  predicate Alnum(c: char) {
    || '0' <= c <= '9' || 'A' <= c <= 'Z' || 'a' <= c <= 'z'
    || (0xC0 <= c as int <= 0xFF && c as int != 0xD7 && c as int != 0xF7)
  }

  predicate MlsChar(c: char) { Alnum(c) || c == ':' || c == ',' || c == '-' || c == '.' }

  ghost predicate ValidMls(mls: string) {
    0 < |mls| < MlsLimit && forall i :: 0 <= i < |mls| ==> MlsChar(mls[i])
  }

  /** strnlen. */
  method Strnlen(buf: seq<char>, limit: nat) returns (n: nat)
    requires CString(buf)
    ensures n == if |Text(buf)| < limit then |Text(buf)| else limit
  {
    n := 0;
    while n < limit && buf[n] != '\0'
      invariant n <= limit && n <= |Text(buf)|
    {
      n := n + 1;
    }
  }

  /** abk_valid_mls. */
  method CheckMls(mls: Option<seq<char>>) returns (valid: bool)
    requires mls.Some? ==> CString(mls.value)
    ensures valid <==> mls.Some? && ValidMls(Text(mls.value))
  {
    if mls.None? {
      return false;
    }
    var length := Strnlen(mls.value, MlsLimit);
    if length == 0 || length == MlsLimit {
      return false;
    }
    for i := 0 to length
      invariant forall j :: 0 <= j < i ==> MlsChar(Text(mls.value)[j])
    {
      if !MlsChar(mls.value[i]) {
        assert !MlsChar(Text(mls.value)[i]);
        return false;
      }
    }
    return true;
  }

  // ----- printing -----

  function DigitChar(d: nat): char
    requires d < 10
  {
    ('0' as int + d) as char
  }

  /** "%u". */
  function Decimal(n: nat): string {
    if n < 10 then [DigitChar(n)] else Decimal(n / 10) + [DigitChar(n % 10)]
  }

  function TypeName(appid: nat): string { DomainPrefix + Decimal(appid) }

  /** What a buffer of this size can show of a text. */
  function Shown(text: string, size: nat): string
    requires size > 0
  {
    if |text| < size then text else text[..size - 1]
  }

  /** scnprintf: as much of the text as fits, a terminator, and the number of characters written. */
  method Scnprintf(buf: array<char>, text: string) returns (length: nat)
    requires buf.Length > 0
    modifies buf
    ensures length == |Shown(text, buf.Length)|
    ensures buf[..length] == Shown(text, buf.Length) && buf[length] == '\0'
  {
    length := 0;
    while length < |text| && length < buf.Length - 1
      invariant length <= |text| && length <= buf.Length - 1
      invariant buf[..length] == text[..length]
    {
      buf[length] := text[length];
      length := length + 1;
    }
    buf[length] := '\0';
    assert text[..|text|] == text;
  }

  /** abk_type_name. */
  method PrintType(appid: nat, buf: array<char>) returns (error: Option<Errno>, length: nat)
    requires buf.Length > 0
    modifies buf
    ensures error == if !(AppidMin <= appid <= AppidMax) then Some(Einval)
                     else if buf.Length <= 1 then Some(Enametoolong) else None
    ensures error.None? ==> length < buf.Length && buf[..length] == Shown(TypeName(appid), buf.Length) && buf[length] == '\0'
  {
    length := 0;
    if appid < AppidMin || appid > AppidMax {
      return Some(Einval), 0;
    }
    length := Scnprintf(buf, TypeName(appid));
    error := if length == 0 || length >= buf.Length then Some(Enametoolong) else None;
  }

  function ContextOf(appid: nat, mls: string): string { "u:r:" + TypeName(appid) + ":" + mls }

  /** The part of abk_sandbox_policy_ensure that prints the context; the length test after it can never fire. */
  method PrintContext(appid: nat, mls: Option<seq<char>>, context: array<char>) returns (error: Option<Errno>, length: nat)
    requires context.Length == ContextSize && (mls.Some? ==> CString(mls.value))
    modifies context
    ensures error == if AppidMin <= appid <= AppidMax && mls.Some? && ValidMls(Text(mls.value)) then None else Some(Einval)
    ensures error.None? ==> && length < context.Length && context[length] == '\0'
                            && context[..length] == Shown(ContextOf(appid, Text(mls.value)), ContextSize)
  {
    length := 0;
    var name := new char[TypeSize];
    var typeLength;
    error, typeLength := PrintType(appid, name);
    if error.Some? {
      return;
    }
    TypeFits(appid);
    var valid := CheckMls(mls);
    if !valid {
      return Some(Einval), 0;
    }
    length := Scnprintf(context, "u:r:" + name[..typeLength] + ":" + Text(mls.value));
    error := if length == 0 || length >= context.Length then Some(Enametoolong) else None;
  }

  lemma {:induction false} DecimalDigits(n: nat)
    ensures |Decimal(n)| > 0 && forall i :: 0 <= i < |Decimal(n)| ==> '0' <= Decimal(n)[i] <= '9'
  {
    if n >= 10 { DecimalDigits(n / 10); }
  }

  /** The digits are those of the number, most significant first. */
  lemma {:induction false} DecimalValue(n: nat)
    ensures Value(Decimal(n), 10) == n
  {
    if n >= 10 {
      DecimalValue(n / 10);
      assert Decimal(n)[..|Decimal(n)| - 1] == Decimal(n / 10);
    } else {
      assert Decimal(n)[..0] == "";
    }
  }

  lemma {:induction false} DecimalDistinct(a: nat, b: nat)
    requires Decimal(a) == Decimal(b)
    ensures a == b
    decreases a
  {
    var (s, t) := (Decimal(a), Decimal(b));
    if a >= 10 && b >= 10 {
      assert s[..|s| - 1] == Decimal(a / 10) && t[..|t| - 1] == Decimal(b / 10);
      DecimalDistinct(a / 10, b / 10);
      assert s[|s| - 1] == t[|t| - 1];
    } else if a >= 10 {
      DecimalDigits(a / 10);
    } else if b >= 10 {
      DecimalDigits(b / 10);
    }
  }

  lemma FiveDigits(n: nat)
    requires 10000 <= n <= 99999
    ensures |Decimal(n)| == 5
  {
    assert |Decimal(n / 10000)| == 1;
    assert |Decimal(n / 1000)| == 2 by { assert n / 1000 / 10 == n / 10000; }
    assert |Decimal(n / 100)| == 3 by { assert n / 100 / 10 == n / 1000; }
    assert |Decimal(n / 10)| == 4 by { assert n / 10 / 10 == n / 100; }
  }

  lemma TypeFits(appid: nat)
    requires AppidMin <= appid <= AppidMax
    ensures |TypeName(appid)| == 28 && Shown(TypeName(appid), TypeSize) == TypeName(appid)
  {
    FiveDigits(appid);
  }

  /** Different applications get different types. */
  lemma TypesDistinct(a: nat, b: nat)
    requires TypeName(a) == TypeName(b)
    ensures a == b
  {
    assert TypeName(a)[|DomainPrefix|..] == Decimal(a) && TypeName(b)[|DomainPrefix|..] == Decimal(b);
    DecimalDistinct(a, b);
  }

  // ----- parsing -----

  predicate ColonFree(s: string) { forall i :: 0 <= i < |s| ==> s[i] != ':' }

  function IsColon(): char -> bool { (c: char) => c == ':' }

  /** memchr for a colon: what stands before the first one and what follows it. */
  function Cut(s: string): Option<(string, string)> {
    var colon := FirstIndex(s, IsColon());
    if colon == |s| then None else Some((s[..colon], s[colon + 1..]))
  }

  lemma CutIff(s: string, head: string, rest: string)
    ensures Cut(s) == Some((head, rest)) <==> s == head + (":" + rest) && ColonFree(head)
  {
    var colon := FirstIndex(s, IsColon());
    if Cut(s) == Some((head, rest)) {
      forall i | 0 <= i < |head| ensures head[i] != ':' { assert !IsColon()(s[i]); }
      assert s == s[..colon] + ([s[colon]] + s[colon + 1..]);
    }
    if s == head + (":" + rest) && ColonFree(head) {
      forall i | 0 <= i < |head| ensures !IsColon()(s[i]) { assert s[i] == head[i]; }
      assert s[|head|] == ':';
      FirstIndexUnique(s, IsColon(), |head|);
      assert s[..|head|] == head && s[|head| + 1..] == rest;
    }
  }

  /** abk_context_type_and_mls, with its out-parameters as the result. */
  function TypeAndMls(context: string): Result<(string, string), Errno> {
    match Cut(context)
    case None => Err(Einval)
    case Some((_, afterFirst)) =>
      match Cut(afterFirst)
      case None => Err(Einval)
      case Some((_, afterSecond)) =>
        match Cut(afterSecond)
        case None => Err(Einval)
        case Some((name, mls)) => if mls == "" then Err(Einval) else Ok((name, mls))
  }

  ghost predicate Parts(context: string, user: string, role: string, name: string, mls: string) {
    && context == user + (":" + (role + (":" + (name + (":" + mls))))) && mls != ""
    && ColonFree(user) && ColonFree(role) && ColonFree(name)
  }

  lemma PartsParse(context: string, user: string, role: string, name: string, mls: string)
    requires Parts(context, user, role, name, mls)
    ensures TypeAndMls(context) == Ok((name, mls))
  {
    var afterSecond := name + (":" + mls);
    var afterFirst := role + (":" + afterSecond);
    CutIff(context, user, afterFirst);
    CutIff(afterFirst, role, afterSecond);
    CutIff(afterSecond, name, mls);
  }

  /** Parsing finds exactly the third and the remaining part of a context, and rejects everything else. */
  lemma ParseIff(context: string, name: string, mls: string)
    ensures TypeAndMls(context) == Ok((name, mls)) <==> exists user, role :: Parts(context, user, role, name, mls)
  {
    if TypeAndMls(context) == Ok((name, mls)) {
      var (user, afterFirst) := Cut(context).value;
      var (role, afterSecond) := Cut(afterFirst).value;
      CutIff(context, user, afterFirst);
      CutIff(afterFirst, role, afterSecond);
      CutIff(afterSecond, name, mls);
      assert Parts(context, user, role, name, mls);
    }
    if user, role :| Parts(context, user, role, name, mls) {
      PartsParse(context, user, role, name, mls);
    }
  }

  // ----- round trip -----

  lemma TypeColonFree(appid: nat)
    ensures ColonFree(TypeName(appid))
  {
    DecimalDigits(appid);
    forall i | 0 <= i < |TypeName(appid)| ensures TypeName(appid)[i] != ':' {
      if i >= |DomainPrefix| { assert TypeName(appid)[i] == Decimal(appid)[i - |DomainPrefix|]; }
    }
  }

  /** The longest level the context buffer holds next to a sandbox type. */
  const MlsRoom: nat := 94

  /** What is printed is the context with the level cut to the room there is. */
  lemma ShownContext(appid: nat, mls: string)
    requires AppidMin <= appid <= AppidMax
    ensures Shown(ContextOf(appid, mls), ContextSize) == ContextOf(appid, if |mls| <= MlsRoom then mls else mls[..MlsRoom])
  {
    FiveDigits(appid);
    var head := "u:r:" + TypeName(appid) + ":";
    assert |head| == 33;
    assert ContextOf(appid, mls) == head + mls;
    if |mls| > MlsRoom {
      assert ContextOf(appid, mls[..MlsRoom]) == head + mls[..MlsRoom];
      assert (head + mls)[..127] == head + mls[..MlsRoom];
    }
  }

  lemma ContextParts(name: string, mls: string)
    ensures "u:r:" + name + ":" + mls == "u" + (":" + ("r" + (":" + (name + (":" + mls)))))
  {
    assert "u:r:" == "u" + (":" + ("r" + ":"));
  }

  /** Parsing what was printed gives the type back, and the level exactly when it has at most 94 of the 95 allowed characters. */
  lemma PrintThenParse(appid: nat, mls: string)
    requires AppidMin <= appid <= AppidMax && ValidMls(mls)
    ensures var back := TypeAndMls(Shown(ContextOf(appid, mls), ContextSize));
            && back.Ok? && back.value.0 == TypeName(appid)
            && Parts(Shown(ContextOf(appid, mls), ContextSize), "u", "r", TypeName(appid), back.value.1)
            && (back.value.1 == mls <==> |mls| <= MlsRoom)
            && (|mls| > MlsRoom ==> |mls| == 95 && back.value.1 == mls[..94])
  {
    var kept := if |mls| <= MlsRoom then mls else mls[..MlsRoom];
    ShownContext(appid, mls);
    TypeColonFree(appid);
    ContextParts(TypeName(appid), kept);
    PartsParse(ContextOf(appid, kept), "u", "r", TypeName(appid), kept);
  }

  /** At 95 characters two different levels print the same context. */
  lemma LevelsCollide(appid: nat, mls: string, last: char)
    requires AppidMin <= appid <= AppidMax && ValidMls(mls) && |mls| == 95 && MlsChar(last)
    ensures ValidMls(mls[..94] + [last])
    ensures Shown(ContextOf(appid, mls[..94] + [last]), ContextSize) == Shown(ContextOf(appid, mls), ContextSize)
  {
    ShownContext(appid, mls);
    ShownContext(appid, mls[..94] + [last]);
    assert (mls[..94] + [last])[..94] == mls[..94];
  }

  // ----- eligibility -----

  /** abk_sandbox_context_is_eligible for a readable context: the level to keep, if the type may enter a sandbox. */
  function Eligible(context: string): Result<Option<string>, Errno> {
    match TypeAndMls(context)
    case Err(e) => Err(e)
    case Ok((name, mls)) => Ok(if UntrustedPrefix <= name then Some(mls) else None)
  }

  /** Exactly the types that start with the prefix of untrusted applications may enter; malformed contexts are errors. */
  lemma EligibleIff(context: string, mls: string)
    ensures Eligible(context) == Ok(Some(mls)) <==>
              exists user, role, rest :: Parts(context, user, role, "untrusted_app" + rest, mls)
    ensures Eligible(context).Err? <==> forall user, role, name, level :: !Parts(context, user, role, name, level)
  {
    if TypeAndMls(context).Ok? {
      var (name, level) := TypeAndMls(context).value;
      ParseIff(context, name, level);
      if UntrustedPrefix <= name {
        assert name == "untrusted_app" + name[|UntrustedPrefix|..];
      }
    }
    if user, role, name, level :| Parts(context, user, role, name, level) {
      PartsParse(context, user, role, name, level);
    }
    if user, role, rest :| Parts(context, user, role, "untrusted_app" + rest, mls) {
      PartsParse(context, user, role, "untrusted_app" + rest, mls);
    }
  }

  /**
   From the caller's context to the sandbox's: an eligible caller with a valid level always gets a context, of the type
   of its own application, with its own level up to 94 characters, from which no further entry is possible.
   */
  lemma EntryContext(context: string, appid: nat, mls: string)
    requires AppidMin <= appid <= AppidMax && Eligible(context) == Ok(Some(mls)) && ValidMls(mls)
    ensures var target := Shown(ContextOf(appid, mls), ContextSize);
            && TypeAndMls(target).Ok? && TypeAndMls(target).value.0 == TypeName(appid)
            && (TypeAndMls(target).value.1 == TypeAndMls(context).value.1 <==> |mls| <= MlsRoom)
            && Eligible(target) == Ok(None)
  {
    PrintThenParse(appid, mls);
    assert TypeName(appid)[0] == 'a' && UntrustedPrefix[0] == 'u';
  }
}
