/** The shell normaliser that puts the sandbox last, the defconfig it rewrites, and the Python check of the result. */
module LsmConfig {
  import opened Sequences
  import opened LsmList

  datatype ConfigError =
    | NoDefault | ManyAssignments | Malformed | InvalidList | EmptyEntry | DuplicateEntry | NoSelinux | NoSandbox | SandboxNotLast

  const LsmPrefix: string := "CONFIG_LSM="

  // ----- strings -----

  predicate StartsWith(s: string, prefix: string) { |prefix| <= |s| && s[..|prefix|] == prefix }

  predicate LsmChar(c: char) {
    'A' <= c <= 'Z' || 'a' <= c <= 'z' || '0' <= c <= '9' || c == '_' || c == ',' || c == '.' || c == '-'
  }

  predicate LsmChars(s: string) { forall i :: 0 <= i < |s| ==> LsmChar(s[i]) }

  /** Wrapped in commas, a list contains a wrapped token exactly when it is one of the tokens; the empty token included. */
  lemma WrappedContains(s: string, t: string)
    requires CommaFree(t)
    ensures Contains("," + s + ",", "," + t + ",") <==> t in Split(s)
  {
    var hay := "," + s + ",";
    var needle := "," + t + ",";
    if p: nat :| OccursAt(hay, p, needle) {
      WrappedAt(s, t, p);
      TokenInSplit(s, p, t);
    }
    if t in Split(s) {
      var p := SplitHasToken(s, t);
      WrappedAt(s, t, p);
      assert OccursAt(hay, p, needle);
    }
  }

  lemma WrappedAt(s: string, t: string, p: nat)
    ensures OccursAt("," + s + ",", p, "," + t + ",") <==> TokenAt(s, p, t)
  {
    var hay := "," + s + ",";
    var needle := "," + t + ",";
    if p + |t| <= |s| {
      assert p + |needle| <= |hay|;
      assert hay[p + 1..p + 1 + |t|] == s[p..p + |t|];
      assert hay[p..p + |needle|] == [hay[p]] + hay[p + 1..p + 1 + |t|] + [hay[p + 1 + |t|]];
      assert hay[p] == if p == 0 then ',' else s[p - 1];
      assert hay[p + 1 + |t|] == if p + |t| == |s| then ',' else s[p + |t|];
      if OccursAt(hay, p, needle) {
        assert hay[p..p + |needle|][0] == ',' && hay[p..p + |needle|][1 + |t|] == ',';
        assert hay[p..p + |needle|][1..1 + |t|] == needle[1..1 + |t|] == t;
        assert hay[p..p + |needle|][1..1 + |t|] == hay[p + 1..p + 1 + |t|];
      }
    }
  }

  // ----- the normalised value -----

  function Without(ts: seq<string>, t: string): (r: seq<string>)
    ensures t !in r
    ensures forall x :: x in r <==> x in ts && x != t
  {
    if ts == [] then []
    else
      var front := Without(ts[..|ts| - 1], t);
      var last := ts[|ts| - 1];
      assert ts == ts[..|ts| - 1] + [last];
      if last == t then front else front + [last]
  }

  /** What the normaliser promises for a list value. */
  function Normalized(value: string, lsm: string): Result<string, ConfigError> {
    var ts := Split(value);
    if value == "" || !LsmChars(value) then Err(InvalidList)
    else if "" in ts then Err(EmptyEntry)
    else if !Distinct(ts) then Err(DuplicateEntry)
    else if "selinux" !in ts then Err(NoSelinux)
    else Ok(Join(Without(ts, lsm) + [lsm]))
  }

  /** "${list:+$list,}$token" */
  function Extend(list: string, token: string): string { if list == "" then token else list + "," + token }

  lemma JoinEmpty(ts: seq<string>)
    requires forall t :: t in ts ==> t != ""
    ensures Join(ts) == "" <==> ts == []
  {
    if ts != [] { assert ts[0] in ts; }
  }

  lemma {:induction false} DistinctWithout(ts: seq<string>, t: string)
    requires Distinct(ts)
    ensures Distinct(Without(ts, t))
    decreases |ts|
  {
    if ts != [] {
      var (front, last) := (ts[..|ts| - 1], ts[|ts| - 1]);
      assert ts == front + [last];
      DistinctWithout(front, t);
      assert last !in front;
    }
  }

  /** What stays keeps its order. */
  lemma {:induction false} WithoutOrder(ts: seq<string>, t: string, i: nat, j: nat) returns (p: nat, q: nat)
    requires i < j < |Without(ts, t)|
    ensures p < q < |ts| && ts[p] == Without(ts, t)[i] && ts[q] == Without(ts, t)[j]
    decreases |ts|
  {
    var (front, last) := (ts[..|ts| - 1], ts[|ts| - 1]);
    if j < |Without(front, t)| {
      p, q := WithoutOrder(front, t, i, j);
    } else {
      assert Without(front, t)[i] in Without(front, t);
      p, q :| 0 <= p < |front| && front[p] == Without(front, t)[i] && q == |ts| - 1;
    }
  }

  lemma WithoutAbsent(ts: seq<string>, t: string)
    requires t !in ts
    ensures Without(ts, t) == ts
  {
    if ts != [] {
      var (front, last) := (ts[..|ts| - 1], ts[|ts| - 1]);
      assert ts == front + [last];
      WithoutAbsent(front, t);
    }
  }

  /** The test `[[ ",$seen," == *",$token,"* ]]` of the loop, for the tokens seen so far. */
  lemma SeenContains(done: seq<string>, t: string)
    requires t != "" && CommaFree(t)
    requires forall x :: x in done ==> x != "" && CommaFree(x)
    ensures Contains("," + Join(done) + ",", "," + t + ",") <==> t in done
  {
    WrappedContains(Join(done), t);
    if done == [] {
      SplitOne("");
    } else {
      SplitJoin(done);
    }
  }

  /** The substring test [[ $hay == *"$needle"* ]]. */
  method Holds(hay: string, needle: string) returns (found: bool)
    ensures found <==> Contains(hay, needle)
  {
    found := Find(hay, 0, needle).Some?;
  }

  /** One round of the loop on the two growing lists. */
  lemma ExtendStep(done: seq<string>, token: string, lsm: string)
    requires token != "" && forall x :: x in done ==> x != ""
    ensures Extend(Join(done), token) == Join(done + [token])
    ensures (if token == lsm then Join(Without(done, lsm)) else Extend(Join(Without(done, lsm)), token))
            == Join(Without(done + [token], lsm))
  {
    assert (done + [token])[..|done|] == done;
    JoinAppend(done, token);
    JoinEmpty(done);
    JoinAppend(Without(done, lsm), token);
    JoinEmpty(Without(done, lsm));
  }

  /** The loop's state after the tokens `done`. */
  ghost predicate LoopState(done: seq<string>, lsm: string, seen: string, normalized: string) {
    seen == Join(done) && normalized == Join(Without(done, lsm)) && Distinct(done)
  }

  lemma LoopStep(done: seq<string>, token: string, lsm: string, seen: string, normalized: string)
    requires token != "" && (forall x :: x in done ==> x != "") && token !in done
    requires LoopState(done, lsm, seen, normalized)
    ensures LoopState(done + [token], lsm, Extend(seen, token), if token == lsm then normalized else Extend(normalized, token))
  {
    ExtendStep(done, token, lsm);
  }

  /** The token loop: it stops at the first repeated token, and otherwise yields the list without the LSM. */
  method NormalizeTokens(parsed: seq<string>, lsm: string) returns (repeated: bool, normalized: string)
    requires forall x :: x in parsed ==> x != "" && CommaFree(x)
    ensures repeated <==> !Distinct(parsed)
    ensures !repeated ==> normalized == Join(Without(parsed, lsm))
  {
    var seen := "";
    normalized := "";
    var i := 0;
    while i < |parsed|
      invariant i <= |parsed|
      invariant LoopState(parsed[..i], lsm, seen, normalized)
    {
      var token := parsed[i];
      ghost var done := parsed[..i];
      assert token in parsed && forall x :: x in done ==> x in parsed;
      SeenContains(done, token);
      repeated := Holds("," + seen + ",", "," + token + ",");
      if repeated {
        RepeatedAt(parsed, i);
        return;
      }
      assert parsed[..i + 1] == done + [token];
      LoopStep(done, token, lsm, seen, normalized);
      seen := Extend(seen, token);
      if token != lsm {
        normalized := Extend(normalized, token);
      }
      i := i + 1;
    }
    assert parsed[..i] == parsed;
    repeated := false;
  }

  lemma RepeatedAt(parsed: seq<string>, i: nat)
    requires i < |parsed| && parsed[i] in parsed[..i]
    ensures !Distinct(parsed)
  {
    var j :| 0 <= j < i && parsed[..i][j] == parsed[i];
    assert parsed[j] == parsed[i];
  }

  /** The part of abk_enable_lsm from the value to the new value. */
  method EnableLsm(value: string, lsm: string) returns (r: Result<string, ConfigError>)
    ensures r == Normalized(value, lsm)
  {
    if value == "" || !LsmChars(value) {
      return Err(InvalidList);
    }
    WrappedContains(value, "");
    assert "," + "" + "," == ",,";
    var empty := Holds("," + value + ",", ",,");
    if empty {
      return Err(EmptyEntry);
    }
    var parsed := Split(value);
    var repeated, normalized := NormalizeTokens(parsed, lsm);
    if repeated {
      return Err(DuplicateEntry);
    }
    WrappedContains(value, "selinux");
    assert "," + "selinux" + "," == ",selinux,";
    var selinux := Holds("," + value + ",", ",selinux,");
    if !selinux {
      return Err(NoSelinux);
    }
    JoinEmpty(Without(parsed, lsm));
    JoinAppend(Without(parsed, lsm), lsm);
    return Ok(Extend(normalized, lsm));
  }

  // ----- the Python check of one value -----

  /** The checks of validate_defconfig on one value; the installer makes them for the sandbox's own name. */
  function Validate(value: string, lsm: string): Option<ConfigError> {
    var ts := Split(value);
    if value == "" || !LsmChars(value) then Some(Malformed)
    else if "" in ts then Some(EmptyEntry)
    else if !Distinct(ts) then Some(DuplicateEntry)
    else if "selinux" !in ts then Some(NoSelinux)
    else if lsm !in ts then Some(NoSandbox)
    else if ts[|ts| - 1] != lsm then Some(SandboxNotLast)
    else None
  }

  lemma {:induction false} JoinChars(ts: seq<string>)
    requires forall t :: t in ts ==> LsmChars(t)
    ensures LsmChars(Join(ts))
    decreases |ts|
  {
    if |ts| > 0 {
      assert ts[0] in ts;
      assert forall t :: t in ts[1..] ==> t in ts;
      JoinChars(ts[1..]);
    }
  }

  lemma {:induction false} SplitChars(s: string)
    requires LsmChars(s)
    ensures forall t :: t in Split(s) ==> LsmChars(t)
    decreases |s|
  {
    var e := TokenEnd(s);
    if e < |s| { SplitChars(s[e + 1..]); }
  }

  /** The tokens of a normalised value: those of the input without the LSM, in their order, then the LSM. */
  lemma NormalizedTokens(value: string, lsm: string)
    requires lsm != "" && CommaFree(lsm) && LsmChars(lsm) && Normalized(value, lsm).Ok?
    ensures var out := Normalized(value, lsm).value;
            && Split(out) == Without(Split(value), lsm) + [lsm]
            && Distinct(Split(out)) && LsmChars(out) && out != "" && "" !in Split(out)
  {
    var ts := Split(value);
    SplitChars(value);
    DistinctWithout(ts, lsm);
    JoinedTokens(Without(ts, lsm), lsm);
  }

  lemma JoinedTokens(kept: seq<string>, lsm: string)
    requires lsm != "" && CommaFree(lsm) && LsmChars(lsm) && lsm !in kept && Distinct(kept)
    requires forall t :: t in kept ==> t != "" && CommaFree(t) && LsmChars(t)
    ensures var out := Join(kept + [lsm]);
            Split(out) == kept + [lsm] && Distinct(kept + [lsm]) && LsmChars(out) && out != "" && "" !in kept + [lsm]
  {
    var out := kept + [lsm];
    assert forall t :: t in out ==> t in kept || t == lsm;
    SplitJoin(out);
    JoinChars(out);
    JoinEmpty(out);
  }

  predicate IsToken(lsm: string) { CommaFree(lsm) && LsmChars(lsm) && lsm != "" && lsm != "selinux" }

  lemma SandboxIsToken()
    ensures IsToken(Sandbox)
  {
  }

  lemma NormalizedChecks(value: string, lsm: string)
    requires IsToken(lsm) && Normalized(value, lsm).Ok?
    ensures Validate(Normalized(value, lsm).value, lsm) == None
  {
    NormalizedTokens(value, lsm);
    var kept := Without(Split(value), lsm);
    assert "selinux" in kept;
    LastOf(kept, lsm);
  }

  lemma LastOf(kept: seq<string>, lsm: string)
    ensures (kept + [lsm])[|kept + [lsm]| - 1] == lsm && (kept + [lsm])[..|kept + [lsm]| - 1] == kept
    ensures forall t :: t in kept + [lsm] <==> t in kept || t == lsm
  {
  }

  /** Whatever the normaliser accepts, the validator and the kernel's strict order check accept as well. */
  lemma NormalizedIsValid(value: string)
    requires Normalized(value, Sandbox).Ok?
    ensures Validate(Normalized(value, Sandbox).value, Sandbox) == None
    ensures SafeOrder(Normalized(value, Sandbox).value, false)
  {
    SandboxIsToken();
    NormalizedChecks(value, Sandbox);
    ValidIsSafe(Normalized(value, Sandbox).value);
  }

  /** The validator accepts exactly the values that are safe without a ksu tail, name selinux and use the list alphabet. */
  lemma ValidIsSafe(value: string)
    ensures Validate(value, Sandbox) == None <==> SafeOrder(value, false) && LsmChars(value) && "selinux" in Split(value)
  {
    var ts := Split(value);
    if value == "" { SplitOne(value); }
    if "" in ts {
      var i :| 0 <= i < |ts| && ts[i] == "";
    }
    assert ts[|ts| - 1] in ts;
  }

  /** Normalising again changes nothing. */
  lemma NormalizedTwice(value: string, lsm: string)
    requires IsToken(lsm) && Normalized(value, lsm).Ok?
    ensures Normalized(Normalized(value, lsm).value, lsm) == Normalized(value, lsm)
  {
    NormalizedTokens(value, lsm);
    var kept := Without(Split(value), lsm);
    assert "selinux" in kept;
    LastOf(kept, lsm);
    WithoutLast(kept, lsm);
  }

  lemma WithoutLast(kept: seq<string>, lsm: string)
    requires lsm !in kept
    ensures Without(kept + [lsm], lsm) == kept
  {
    LastOf(kept, lsm);
    WithoutAbsent(kept, lsm);
  }

  // ----- the defconfig -----

  function SelectLsm(lines: seq<string>): seq<string> {
    if lines == [] then []
    else SelectLsm(lines[..|lines| - 1]) + if StartsWith(lines[|lines| - 1], LsmPrefix) then [lines[|lines| - 1]] else []
  }

  predicate Assigns(line: string, symbol: string) {
    StartsWith(line, "CONFIG_" + symbol + "=") || line == "# CONFIG_" + symbol + " is not set"
  }

  function Drop(lines: seq<string>, symbol: string): (r: seq<string>)
    ensures forall l :: l in r ==> l in lines && !Assigns(l, symbol)
  {
    if lines == [] then []
    else
      var front := Drop(lines[..|lines| - 1], symbol);
      if Assigns(lines[|lines| - 1], symbol) then front else front + [lines[|lines| - 1]]
  }

  /** abk_set_config: every assignment of the symbol goes, one is appended. */
  function SetConfig(lines: seq<string>, symbol: string, value: string): seq<string> {
    Drop(lines, symbol) + [if value == "n" then "# CONFIG_" + symbol + " is not set" else "CONFIG_" + symbol + "=" + value]
  }

  function Quoted(value: string): string { "\"" + value + "\"" }

  predicate QuotedAssignment(line: string) {
    StartsWith(line, LsmPrefix + "\"") && |line| > |LsmPrefix| + 1 && line[|line| - 1] == '"'
  }

  function QuotedValue(line: string): string
    requires QuotedAssignment(line)
  {
    line[|LsmPrefix| + 1..|line| - 1]
  }

  /** The value abk_enable_lsm starts from; `kconfig` is the applicable default of security/Kconfig. */
  function CurrentValue(lines: seq<string>, kconfig: Option<string>): Result<string, ConfigError> {
    var found := SelectLsm(lines);
    if |found| == 0 then
      if kconfig.None? || kconfig.value == "" then Err(NoDefault) else Ok(kconfig.value)
    else if |found| == 1 then
      if QuotedAssignment(found[0]) then Ok(QuotedValue(found[0])) else Err(Malformed)
    else Err(ManyAssignments)
  }

  /** abk_enable_lsm for the sandbox, on a whole defconfig. */
  function EnableInFile(lines: seq<string>, kconfig: Option<string>): Result<seq<string>, ConfigError> {
    match CurrentValue(lines, kconfig)
    case Err(e) => Err(e)
    case Ok(value) =>
      match Normalized(value, Sandbox)
      case Err(e) => Err(e)
      case Ok(out) => Ok(SetConfig(lines, "LSM", Quoted(out)))
  }

  /** The CONFIG_LSM part of validate_defconfig with require_sandbox. */
  function ValidateFile(lines: seq<string>): Option<ConfigError> {
    var found := SelectLsm(lines);
    if |found| != 1 then Some(ManyAssignments)
    else if !QuotedAssignment(found[0]) then Some(Malformed)
    else Validate(QuotedValue(found[0]), Sandbox)
  }

  /** What counts as an assignment of a symbol: a value, or the comment that unsets it. */
  lemma AssignsIff(line: string, symbol: string)
    ensures Assigns(line, symbol) <==>
              line == "# CONFIG_" + symbol + " is not set" || exists v :: line == "CONFIG_" + symbol + "=" + v
  {
    var prefix := "CONFIG_" + symbol + "=";
    if StartsWith(line, prefix) { assert line == prefix + line[|prefix|..]; }
    if v :| line == prefix + v { assert line[..|prefix|] == prefix; }
  }

  /** Dropping works line by line: the lines of other symbols stay, each in its place. */
  lemma {:induction false} DropAppend(a: seq<string>, b: seq<string>, symbol: string)
    ensures Drop(a + b, symbol) == Drop(a, symbol) + Drop(b, symbol)
    decreases |b|
  {
    if b == [] {
      assert a + b == a;
    } else {
      assert (a + b)[..|a + b| - 1] == a + b[..|b| - 1];
      DropAppend(a, b[..|b| - 1], symbol);
    }
  }

  lemma DropOne(line: string, symbol: string)
    ensures Drop([line], symbol) == if Assigns(line, symbol) then [] else [line]
  {
    assert [line][..0] == [];
  }

  lemma {:induction false} SelectAppend(a: seq<string>, b: seq<string>)
    ensures SelectLsm(a + b) == SelectLsm(a) + SelectLsm(b)
    decreases |b|
  {
    if b == [] {
      assert a + b == a;
    } else {
      assert (a + b)[..|a + b| - 1] == a + b[..|b| - 1];
      SelectAppend(a, b[..|b| - 1]);
    }
  }

  /** No line of these is a list assignment. */
  predicate NoList(lines: seq<string>) { forall l :: l in lines ==> !StartsWith(l, LsmPrefix) }

  lemma {:induction false} SelectNone(lines: seq<string>)
    ensures SelectLsm(lines) == [] <==> NoList(lines)
    decreases |lines|
  {
    if lines != [] {
      var (front, last) := (lines[..|lines| - 1], lines[|lines| - 1]);
      assert lines == front + [last];
      SelectNone(front);
    }
  }

  lemma SelectOne(a: seq<string>, line: string, b: seq<string>)
    requires StartsWith(line, LsmPrefix) && NoList(a) && NoList(b)
    ensures SelectLsm(a + [line] + b) == [line]
  {
    SelectAppend(a + [line], b);
    SelectAppend(a, [line]);
    SelectNone(a);
    SelectNone(b);
    assert [line][..0] == [];
  }

  /** The only list assignment of a file, with what stands before and after it. */
  lemma {:induction false} SelectedAlone(lines: seq<string>) returns (a: seq<string>, b: seq<string>)
    requires |SelectLsm(lines)| == 1
    ensures lines == a + SelectLsm(lines) + b && NoList(a) && NoList(b)
    decreases |lines|
  {
    var (front, last) := (lines[..|lines| - 1], lines[|lines| - 1]);
    assert lines == front + [last];
    if StartsWith(last, LsmPrefix) {
      SelectNone(front);
      a, b := front, [];
    } else {
      a, b := SelectedAlone(front);
      b := b + [last];
    }
  }

  function ListLine(value: string): string { LsmPrefix + Quoted(value) }

  lemma ListLineFacts(value: string)
    ensures StartsWith(ListLine(value), LsmPrefix) && QuotedAssignment(ListLine(value)) && QuotedValue(ListLine(value)) == value
  {
    AssignmentLine(value);
    assert "CONFIG_" + "LSM" + "=" == LsmPrefix;
  }

  lemma QuotedIsListLine(line: string)
    requires QuotedAssignment(line)
    ensures line == ListLine(QuotedValue(line))
  {
    var start := LsmPrefix + "\"";
    assert line == line[..|start|] + QuotedValue(line) + [line[|line| - 1]];
  }

  /** The value the build step starts from: that of the only assignment, or else the default of the kernel tree. */
  lemma StartsFromFile(a: seq<string>, value: string, b: seq<string>, kconfig: Option<string>)
    requires NoList(a) && NoList(b)
    ensures CurrentValue(a + [ListLine(value)] + b, kconfig) == Ok(value)
    ensures CurrentValue(a, Some(value)) == if value == "" then Err(NoDefault) else Ok(value)
    ensures CurrentValue(a, None) == Err(NoDefault)
  {
    ListLineFacts(value);
    SelectOne(a, ListLine(value), b);
    SelectNone(a);
  }

  /** Several assignments, or one that is not quoted, are refused. */
  lemma RefusesOthers(a: seq<string>, line: string, b: seq<string>, kconfig: Option<string>)
    requires StartsWith(line, LsmPrefix)
    ensures NoList(a) && NoList(b) && (forall v :: line != ListLine(v)) ==> CurrentValue(a + [line] + b, kconfig) == Err(Malformed)
    ensures !NoList(a) || !NoList(b) ==> CurrentValue(a + [line] + b, kconfig) == Err(ManyAssignments)
  {
    if QuotedAssignment(line) { QuotedIsListLine(line); }
    if NoList(a) && NoList(b) {
      SelectOne(a, line, b);
    } else {
      SelectAppend(a + [line], b);
      SelectAppend(a, [line]);
      SelectNone(a);
      SelectNone(b);
      assert [line][..0] == [];
      assert |SelectLsm(a + [line] + b)| >= 2;
    }
  }

  /**
   The build step on a file with one list: it fails as the normaliser does on that list, and otherwise the other lines
   stay as they are and the list, normalised, becomes the last line.
   */
  lemma EnabledFileIs(a: seq<string>, value: string, b: seq<string>, kconfig: Option<string>)
    requires forall l :: l in a || l in b ==> !Assigns(l, "LSM")
    ensures EnableInFile(a + [ListLine(value)] + b, kconfig) ==
              match Normalized(value, Sandbox)
              case Err(e) => Err(e)
              case Ok(out) => Ok(a + b + [ListLine(out)])
  {
    assert "CONFIG_" + "LSM" + "=" == LsmPrefix;
    assert NoList(a) && NoList(b);
    StartsFromFile(a, value, b, kconfig);
    var line := ListLine(value);
    ListLineFacts(value);
    DropAppend(a + [line], b, "LSM");
    DropAppend(a, [line], "LSM");
    DropOne(line, "LSM");
    DropNothing(a, "LSM");
    DropNothing(b, "LSM");
    assert Drop(a + [line] + b, "LSM") == a + b;
    match Normalized(value, Sandbox) {
      case Err(_) =>
      case Ok(out) =>
        assert |Quoted(out)| > 1;
        assert "CONFIG_" + "LSM" + "=" + Quoted(out) == ListLine(out);
    }
  }

  /** Which files the verification step accepts: those with exactly one list, quoted, that is a valid order. */
  lemma ValidFileIff(lines: seq<string>)
    ensures ValidateFile(lines) == None <==>
              exists a, value, b :: lines == a + [ListLine(value)] + b && NoList(a) && NoList(b) && SafeOrder(value, false) &&
                                    LsmChars(value) && "selinux" in Split(value)
  {
    if ValidateFile(lines) == None {
      var a, b := SelectedAlone(lines);
      var line := SelectLsm(lines)[0];
      QuotedIsListLine(line);
      ValidIsSafe(QuotedValue(line));
      assert lines == a + [ListLine(QuotedValue(line))] + b;
    }
    if a, value, b :| lines == a + [ListLine(value)] + b && NoList(a) && NoList(b) && SafeOrder(value, false) &&
                      LsmChars(value) && "selinux" in Split(value) {
      ListLineFacts(value);
      SelectOne(a, ListLine(value), b);
      ValidIsSafe(value);
    }
  }

  lemma {:induction false} SelectDropped(lines: seq<string>)
    requires forall l :: l in lines ==> !Assigns(l, "LSM")
    ensures SelectLsm(lines) == []
    decreases |lines|
  {
    assert "CONFIG_" + "LSM" + "=" == LsmPrefix;
    if lines != [] {
      assert lines[|lines| - 1] in lines;
      SelectDropped(lines[..|lines| - 1]);
    }
  }

  lemma {:induction false} DropNothing(lines: seq<string>, symbol: string)
    requires forall l :: l in lines ==> !Assigns(l, symbol)
    ensures Drop(lines, symbol) == lines
    decreases |lines|
  {
    if lines != [] {
      assert lines[|lines| - 1] in lines;
      assert lines == lines[..|lines| - 1] + [lines[|lines| - 1]];
      DropNothing(lines[..|lines| - 1], symbol);
    }
  }

  lemma AssignmentLine(out: string)
    ensures var line := "CONFIG_" + "LSM" + "=" + Quoted(out);
            Assigns(line, "LSM") && StartsWith(line, LsmPrefix) && QuotedAssignment(line) && QuotedValue(line) == out
  {
    var line := "CONFIG_" + "LSM" + "=" + Quoted(out);
    assert "CONFIG_" + "LSM" + "=" == LsmPrefix;
    assert line == LsmPrefix + Quoted(out);
    assert line[..|LsmPrefix|] == LsmPrefix;
    assert line[..|LsmPrefix| + 1] == LsmPrefix + "\"";
    assert line[|LsmPrefix| + 1..|line| - 1] == out;
  }

  /** After a rewrite the file has exactly one assignment, the last line, with the value written. */
  lemma WrittenValue(lines: seq<string>, out: string)
    requires out != ""
    ensures var after := SetConfig(lines, "LSM", Quoted(out));
            && after == Drop(lines, "LSM") + ["CONFIG_" + "LSM" + "=" + Quoted(out)]
            && SelectLsm(after) == ["CONFIG_" + "LSM" + "=" + Quoted(out)]
            && SetConfig(after, "LSM", Quoted(out)) == after
  {
    var line := "CONFIG_" + "LSM" + "=" + Quoted(out);
    var kept := Drop(lines, "LSM");
    var after := kept + [line];
    AssignmentLine(out);
    assert |Quoted(out)| > 1;
    SelectDropped(kept);
    assert after[..|after| - 1] == kept;
    DropNothing(kept, "LSM");
  }

  /**
   The build step and the verification step agree: whenever the defconfig could be normalised, the rewritten file
   passes every CONFIG_LSM check, its list is a safe order, and a second application leaves the file as it is.
   */
  lemma EnabledFileIsValid(lines: seq<string>, kconfig: Option<string>, again: Option<string>)
    requires EnableInFile(lines, kconfig).Ok?
    ensures ValidateFile(EnableInFile(lines, kconfig).value) == None
    ensures EnableInFile(EnableInFile(lines, kconfig).value, again) == EnableInFile(lines, kconfig)
  {
    var value := CurrentValue(lines, kconfig).value;
    var out := Normalized(value, Sandbox).value;
    SandboxIsToken();
    NormalizedTokens(value, Sandbox);
    NormalizedIsValid(value);
    NormalizedTwice(value, Sandbox);
    WrittenValue(lines, out);
    AssignmentLine(out);
  }
}
