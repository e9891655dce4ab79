/** The three-valued preprocessor: which lines of a C file no valuation of the unknown conditions can keep. */
module PreprocessorMask {
  import opened Sequences
  import opened IntegerTruth

  // ----- lines and directives -----

  datatype Directive = Text | If(expr: string) | IfDef | Elif(expr: string) | Else | Endif

  datatype MaskError = UnmatchedElif | UnmatchedElse | UnmatchedEndif | Unterminated

  function LineEnd(t: string): (e: nat)
    ensures e <= |t| && (e < |t| ==> t[e] == '\n') && forall i :: 0 <= i < e ==> t[i] != '\n'
  {
    if t == "" || t[0] == '\n' then 0 else LineEnd(t[1..]) + 1
  }

  /** The lines of a text, each with its line break. */
  function Lines(t: string): seq<string>
    decreases |t|
  {
    var e := LineEnd(t);
    if t == "" then [] else if e == |t| then [t] else [t[..e + 1]] + Lines(t[e + 1..])
  }

  function SkipBlanks(s: string): (r: string)
    ensures |r| <= |s|
  {
    if s != "" && (s[0] == ' ' || s[0] == '\t') then SkipBlanks(s[1..]) else s
  }

  predicate WordChar(c: char) { 'a' <= c <= 'z' || 'A' <= c <= 'Z' || '0' <= c <= '9' || c == '_' }

  function WordLength(s: string): (n: nat)
    ensures n <= |s|
  {
    if s != "" && WordChar(s[0]) then WordLength(s[1..]) + 1 else 0
  }

  /** The directive on a line whose comments and literals are blanked. */
  function Classify(line: string): Directive {
    var hash := SkipBlanks(line);
    if hash == "" || hash[0] != '#' then Text
    else
      var name := SkipBlanks(hash[1..]);
      var word := name[..WordLength(name)];
      var rest := name[WordLength(name)..];
      var expr := rest[..LineEnd(rest)];
      if word == "if" then If(expr)
      else if word == "ifdef" || word == "ifndef" then IfDef
      else if word == "elif" then Elif(expr)
      else if word == "else" then Else
      else if word == "endif" then Endif
      else Text
  }

  predicate Blanks(s: string) { forall i :: 0 <= i < |s| ==> s[i] == ' ' || s[i] == '\t' }

  predicate Word(s: string) { forall i :: 0 <= i < |s| ==> WordChar(s[i]) }

  /** A line of the form `# word rest` with blanks around the number sign, `word` being all of the word. */
  predicate DirectiveLine(line: string, before: string, between: string, word: string, rest: string) {
    && line == before + ("#" + (between + (word + rest))) && Blanks(before) && Blanks(between)
    && word != "" && Word(word) && (rest == "" || !WordChar(rest[0]))
  }

  lemma {:induction false} SkipBlanksOf(blanks: string, s: string)
    requires Blanks(blanks) && (s == "" || (s[0] != ' ' && s[0] != '\t'))
    ensures SkipBlanks(blanks + s) == s
    decreases |blanks|
  {
    if blanks == "" {
      assert blanks + s == s;
    } else {
      assert (blanks + s)[1..] == blanks[1..] + s;
      SkipBlanksOf(blanks[1..], s);
    }
  }

  lemma BlanksCons(c: char, s: string)
    requires (c == ' ' || c == '\t') && Blanks(s)
    ensures Blanks([c] + s)
  {
  }

  lemma {:induction false} SkippedBlanks(s: string)
    ensures var n := |s| - |SkipBlanks(s)|; s[n..] == SkipBlanks(s) && Blanks(s[..n])
    decreases |s|
  {
    if s != "" && (s[0] == ' ' || s[0] == '\t') {
      var n := |s| - |SkipBlanks(s)|;
      SkippedBlanks(s[1..]);
      BlanksCons(s[0], s[1..][..n - 1]);
      assert s[..n] == [s[0]] + s[1..][..n - 1];
      assert s[n..] == s[1..][n - 1..];
    }
  }

  lemma {:induction false} WordLengthOf(word: string, rest: string)
    requires Word(word) && (rest == "" || !WordChar(rest[0]))
    ensures WordLength(word + rest) == |word|
    decreases |word|
  {
    if word == "" {
      assert word + rest == rest;
    } else {
      assert (word + rest)[1..] == word[1..] + rest;
      WordLengthOf(word[1..], rest);
    }
  }

  lemma {:induction false} WordLengthIs(s: string)
    ensures Word(s[..WordLength(s)]) && (WordLength(s) == |s| || !WordChar(s[WordLength(s)]))
    decreases |s|
  {
    if s != "" && WordChar(s[0]) {
      WordLengthIs(s[1..]);
      assert s[..WordLength(s)] == [s[0]] + s[1..][..WordLength(s[1..])];
    }
  }

  /** What the word after the number sign means; the expression runs to the line break. */
  lemma ClassifyLine(line: string, before: string, between: string, word: string, rest: string)
    requires DirectiveLine(line, before, between, word, rest)
    ensures word == "if" ==> Classify(line) == If(rest[..LineEnd(rest)])
    ensures word == "elif" ==> Classify(line) == Elif(rest[..LineEnd(rest)])
    ensures word == "ifdef" || word == "ifndef" ==> Classify(line) == IfDef
    ensures word == "else" ==> Classify(line) == Else
    ensures word == "endif" ==> Classify(line) == Endif
    ensures !Keyword(word) ==> Classify(line) == Text
  {
    var name := word + rest;
    SkipBlanksOf(before, "#" + (between + name));
    SkipBlanksOf(between, name);
    WordLengthOf(word, rest);
    assert ("#" + (between + name))[1..] == between + name;
    assert name[..|word|] == word && name[|word|..] == rest;
  }

  lemma BlanksBefore(s: string) returns (blanks: string)
    ensures Blanks(blanks) && s == blanks + SkipBlanks(s)
  {
    SkippedBlanks(s);
    blanks := s[..|s| - |SkipBlanks(s)|];
  }

  lemma SplitAtHash(line: string) returns (before: string, between: string)
    requires SkipBlanks(line) != "" && SkipBlanks(line)[0] == '#'
    ensures Blanks(before) && Blanks(between) && line == before + ("#" + (between + SkipBlanks(SkipBlanks(line)[1..])))
  {
    var hash := SkipBlanks(line);
    before := BlanksBefore(line);
    between := BlanksBefore(hash[1..]);
    assert hash == "#" + hash[1..];
  }

  lemma SplitWord(name: string) returns (word: string, rest: string)
    ensures word == name[..WordLength(name)] && name == word + rest
    ensures Word(word) && (rest == "" || !WordChar(rest[0]))
  {
    WordLengthIs(name);
    word, rest := name[..WordLength(name)], name[WordLength(name)..];
  }

  predicate Keyword(word: string) {
    word == "if" || word == "elif" || word == "ifdef" || word == "ifndef" || word == "else" || word == "endif"
  }

  lemma DirectiveWord(line: string)
    requires Classify(line) != Text
    ensures SkipBlanks(line) != "" && SkipBlanks(line)[0] == '#'
    ensures var name := SkipBlanks(SkipBlanks(line)[1..]); Keyword(name[..WordLength(name)])
  {
  }

  /** And only such lines are directives. */
  lemma DirectiveForm(line: string) returns (before: string, between: string, word: string, rest: string)
    requires Classify(line) != Text
    ensures DirectiveLine(line, before, between, word, rest) && Keyword(word)
  {
    DirectiveWord(line);
    before, between := SplitAtHash(line);
    word, rest := SplitWord(SkipBlanks(SkipBlanks(line)[1..]));
    assert word != "";
  }

  function Classified(lines: seq<string>): (ds: seq<Directive>)
    ensures |ds| == |lines|
  {
    seq(|lines|, k requires 0 <= k < |lines| => Classify(lines[k]))
  }

  function Blank(s: string): (r: string)
    ensures |r| == |s|
  {
    seq(|s|, i requires 0 <= i < |s| => if s[i] == '\n' then '\n' else ' ')
  }

  // ----- lines -----

  function Concat(lines: seq<string>): string { if lines == [] then "" else lines[0] + Concat(lines[1..]) }

  lemma {:induction false} ConcatLines(t: string)
    ensures Concat(Lines(t)) == t
    decreases |t|
  {
    var e := LineEnd(t);
    if t != "" && e < |t| {
      ConcatLines(t[e + 1..]);
      assert Lines(t)[1..] == Lines(t[e + 1..]);
    }
  }

  /** A line is not empty, has no line break but at its end, and has one there unless it is the last. */
  predicate LineShape(lines: seq<string>) {
    forall k :: 0 <= k < |lines| ==>
      && lines[k] != "" && (forall i :: 0 <= i < |lines[k]| - 1 ==> lines[k][i] != '\n')
      && (k < |lines| - 1 ==> lines[k][|lines[k]| - 1] == '\n')
  }

  lemma {:induction false} LinesShape(t: string)
    ensures LineShape(Lines(t))
    decreases |t|
  {
    var e := LineEnd(t);
    if t != "" && e < |t| {
      LinesShape(t[e + 1..]);
      var (lines, more) := (Lines(t), Lines(t[e + 1..]));
      forall k | 0 < k < |lines| ensures lines[k] == more[k - 1] {}
    }
  }

  lemma FirstLine(first: string, rest: string)
    requires first != "" && first[|first| - 1] == '\n' && forall i :: 0 <= i < |first| - 1 ==> first[i] != '\n'
    ensures Lines(first + rest) == [first] + Lines(rest)
  {
    var t := first + rest;
    LineEndIs(t, |first| - 1);
    assert t[..|first|] == first && t[|first|..] == rest;
    if rest == "" { assert t == first; }
  }

  /** The lines of a text are the only way to take it apart like that. */
  lemma {:induction false} LinesUnique(lines: seq<string>)
    requires LineShape(lines)
    ensures Lines(Concat(lines)) == lines
    decreases |lines|
  {
    if lines != [] {
      var (first, t) := (lines[0], Concat(lines));
      forall k | 0 <= k < |lines[1..]| ensures lines[1..][k] == lines[k + 1] {}
      LinesUnique(lines[1..]);
      if first[|first| - 1] == '\n' {
        FirstLine(first, Concat(lines[1..]));
      } else {
        assert lines == [first] && t == first;
        LineEndIs(t, |t|);
      }
    }
  }

  // ----- conditional inclusion -----

  /** The open sections, outermost first; a section is the list of the lines that opened its groups so far. */
  type Frames = seq<seq<nat>>

  function Push(f: Frames, d: Directive, k: nat): Option<Frames> {
    match d
    case Text => Some(f)
    case If(_) => Some(f + [[k]])
    case IfDef => Some(f + [[k]])
    case Endif => if f == [] then None else Some(f[..|f| - 1])
    case _ => if f == [] then None else Some(f[..|f| - 1] + [f[|f| - 1] + [k]])
  }

  /** The sections open after the first `k` lines; none when a directive among them is unmatched. */
  function After(ds: seq<Directive>, k: nat): Option<Frames>
    requires k <= |ds|
  {
    if k == 0 then Some([])
    else match After(ds, k - 1)
      case None => None
      case Some(f) => Push(f, ds[k - 1], k - 1)
  }

  /** A choice of truth for every condition that respects the literal ones. */
  ghost predicate Consistent(ds: seq<Directive>, cond: nat -> bool) {
    forall k: nat :: k < |ds| && Known(ds[k]).Some? ==> cond(k) == Known(ds[k]).value
  }

  /** What is certain about a group's condition: the value of a literal one, and that #else has none to fail. */
  ghost function Known(d: Directive): Option<bool> {
    match d
    case If(e) => Truth(e)
    case Elif(e) => Truth(e)
    case Else => Some(true)
    case _ => None
  }

  /** The last group of a section is the one processed: its condition holds and no earlier one does. */
  predicate Processed(section: seq<nat>, cond: nat -> bool) {
    && section != [] && cond(section[|section| - 1])
    && forall i :: 0 <= i < |section| - 1 ==> !cond(section[i])
  }

  /** Section 6.10.1 of ISO/IEC 9899:2011: a group is kept when each section around it processes its current group. */
  predicate Active(f: Frames, cond: nat -> bool) { forall i :: 0 <= i < |f| ==> Processed(f[i], cond) }

  /** A line stays when it ends a section, or when some consistent choice keeps what follows it. */
  ghost predicate Kept(ds: seq<Directive>, k: nat)
    requires k < |ds| && After(ds, k + 1).Some?
  {
    ds[k] == Endif || exists cond :: Consistent(ds, cond) && Active(After(ds, k + 1).value, cond)
  }

  // ----- what the scan tracks -----

  ghost predicate Taken(ds: seq<Directive>, section: seq<nat>) {
    exists i :: 0 <= i < |section| && section[i] < |ds| && Known(ds[section[i]]) == Some(true)
  }

  ghost predicate GroupPossible(ds: seq<Directive>, section: seq<nat>) {
    && section != [] && section[|section| - 1] < |ds|
    && !Taken(ds, section[..|section| - 1]) && Known(ds[section[|section| - 1]]) != Some(false)
  }

  ghost predicate Possible(ds: seq<Directive>, f: Frames) { forall i :: 0 <= i < |f| ==> GroupPossible(ds, f[i]) }

  /** Group starts are earlier lines, increasing within a section and from one section to the next. */
  predicate Ordered(f: Frames, bound: nat) {
    && (forall s :: 0 <= s < |f| ==> f[s] != [])
    && (forall s, i :: 0 <= s < |f| && 0 <= i < |f[s]| ==> f[s][i] < bound)
    && (forall s, i, j :: 0 <= s < |f| && 0 <= i < j < |f[s]| ==> f[s][i] < f[s][j])
    && (forall s, r, i, j :: 0 <= s < r < |f| && 0 <= i < |f[s]| && 0 <= j < |f[r]| ==> f[s][i] < f[r][j])
  }

  lemma OrderedOpen(f: Frames, k: nat)
    requires Ordered(f, k)
    ensures Ordered(f + [[k]], k + 1)
  {
  }

  lemma OrderedNext(f: Frames, k: nat)
    requires Ordered(f, k) && f != []
    ensures Ordered(f[..|f| - 1] + [f[|f| - 1] + [k]], k + 1)
  {
  }

  lemma OrderedClose(f: Frames, k: nat)
    requires Ordered(f, k)
    ensures Ordered(f, k + 1) && (f != [] ==> Ordered(f[..|f| - 1], k + 1))
  {
  }

  lemma PushOrdered(f: Frames, d: Directive, k: nat)
    requires Ordered(f, k) && Push(f, d, k).Some?
    ensures Ordered(Push(f, d, k).value, k + 1)
  {
    if d == Text || d == Endif {
      OrderedClose(f, k);
    } else if d.If? || d == IfDef {
      OrderedOpen(f, k);
    } else {
      OrderedNext(f, k);
    }
  }

  lemma {:induction false} AfterOrdered(ds: seq<Directive>, k: nat)
    requires k <= |ds| && After(ds, k).Some?
    ensures Ordered(After(ds, k).value, k)
  {
    if k > 0 {
      AfterOrdered(ds, k - 1);
      PushOrdered(After(ds, k - 1).value, ds[k - 1], k - 1);
    }
  }

  /** The choice that makes every unknown condition false except those of the current groups. */
  ghost function Favouring(ds: seq<Directive>, f: Frames): nat -> bool {
    (k: nat) =>
      if k < |ds| && Known(ds[k]).Some? then Known(ds[k]).value
      else exists s :: 0 <= s < |f| && f[s] != [] && k == f[s][|f[s]| - 1]
  }

  lemma FavouringActive(ds: seq<Directive>, f: Frames)
    requires Ordered(f, |ds|) && Possible(ds, f)
    ensures Consistent(ds, Favouring(ds, f)) && Active(f, Favouring(ds, f))
  {
    var cond := Favouring(ds, f);
    forall s | 0 <= s < |f| ensures Processed(f[s], cond) {
      var section := f[s];
      assert GroupPossible(ds, section);
      forall i | 0 <= i < |section| - 1 ensures !cond(section[i]) {
        assert section[..|section| - 1][i] == section[i];
        assert Known(ds[section[i]]) != Some(true);
      }
    }
  }

  lemma NotProcessed(section: seq<nat>, cond: nat -> bool, i: nat)
    requires Processed(section, cond) && i < |section| - 1
    ensures !cond(section[i])
  {
  }

  /** Three values suffice: the scan calls a group possible exactly when some consistent choice processes it. */
  lemma PossibleIff(ds: seq<Directive>, f: Frames)
    requires Ordered(f, |ds|)
    ensures Possible(ds, f) <==> exists cond :: Consistent(ds, cond) && Active(f, cond)
  {
    if Possible(ds, f) {
      FavouringActive(ds, f);
    }
    if cond :| Consistent(ds, cond) && Active(f, cond) {
      forall s | 0 <= s < |f| ensures GroupPossible(ds, f[s]) {
        var section := f[s];
        assert Processed(section, cond);
        forall i | 0 <= i < |section| - 1 ensures Known(ds[section[i]]) != Some(true) {
          NotProcessed(section, cond, i);
        }
      }
    }
  }

  lemma KeptIff(ds: seq<Directive>, k: nat)
    requires k < |ds| && After(ds, k + 1).Some?
    ensures Kept(ds, k) <==> ds[k] == Endif || Possible(ds, After(ds, k + 1).value)
  {
    AfterOrdered(ds, k + 1);
    PossibleIff(ds, After(ds, k + 1).value);
  }

  // ----- the scan -----

  /** The stack of (parent possible, definitely taken) pairs that mirrors the open sections. */
  ghost predicate Mirrors(ds: seq<Directive>, f: Frames, stack: seq<(bool, bool)>) {
    && |stack| == |f|
    && forall s :: 0 <= s < |f| ==> f[s] != [] && stack[s] == (Possible(ds, f[..s]), Taken(ds, f[s]))
  }

  lemma TakenAppend(ds: seq<Directive>, section: seq<nat>, k: nat)
    requires k < |ds|
    ensures Taken(ds, section + [k]) <==> Taken(ds, section) || Known(ds[k]) == Some(true)
  {
    var more := section + [k];
    if Taken(ds, section) {
      var i :| 0 <= i < |section| && section[i] < |ds| && Known(ds[section[i]]) == Some(true);
      assert more[i] == section[i];
    }
    assert more[|section|] == k;
  }

  lemma PossibleAppend(ds: seq<Directive>, f: Frames, section: seq<nat>)
    ensures Possible(ds, f + [section]) <==> Possible(ds, f) && GroupPossible(ds, section)
  {
    var more := f + [section];
    assert more[|f|] == section;
    assert forall s :: 0 <= s < |f| ==> more[s] == f[s];
  }

  lemma MirrorsPush(ds: seq<Directive>, f: Frames, stack: seq<(bool, bool)>, section: seq<nat>)
    requires Mirrors(ds, f, stack) && section != []
    ensures Mirrors(ds, f + [section], stack + [(Possible(ds, f), Taken(ds, section))])
  {
    var (more, deeper) := (f + [section], stack + [(Possible(ds, f), Taken(ds, section))]);
    forall s | 0 <= s < |more| ensures more[s] != [] && deeper[s] == (Possible(ds, more[..s]), Taken(ds, more[s])) {
      assert more[..s] == f[..s];
    }
  }

  lemma OneTaken(ds: seq<Directive>, k: nat)
    requires k < |ds|
    ensures Taken(ds, [k]) <==> Known(ds[k]) == Some(true)
  {
    assert [k][0] == k;
  }

  lemma OnePossible(ds: seq<Directive>, k: nat)
    requires k < |ds|
    ensures GroupPossible(ds, [k]) <==> Known(ds[k]) != Some(false)
  {
    var one := [k];
    assert one[..|one| - 1] == [];
  }

  /** Opening a section. */
  lemma MirrorsOpen(ds: seq<Directive>, f: Frames, stack: seq<(bool, bool)>, k: nat)
    requires Mirrors(ds, f, stack) && k < |ds|
    ensures Mirrors(ds, f + [[k]], stack + [(Possible(ds, f), Known(ds[k]) == Some(true))])
    ensures Possible(ds, f + [[k]]) <==> Possible(ds, f) && Known(ds[k]) != Some(false)
  {
    OneTaken(ds, k);
    OnePossible(ds, k);
    MirrorsPush(ds, f, stack, [k]);
    PossibleAppend(ds, f, [k]);
  }

  /** Starting the next group of the innermost section. */
  lemma MirrorsNext(ds: seq<Directive>, f: Frames, stack: seq<(bool, bool)>, k: nat)
    requires Mirrors(ds, f, stack) && k < |ds| && f != []
    ensures var (parent, taken) := stack[|f| - 1];
            var next := f[..|f| - 1] + [f[|f| - 1] + [k]];
            && Mirrors(ds, next, stack[..|f| - 1] + [(parent, taken || Known(ds[k]) == Some(true))])
            && (Possible(ds, next) <==> parent && !taken && Known(ds[k]) != Some(false))
  {
    var below, section := f[..|f| - 1], f[|f| - 1];
    TakenAppend(ds, section, k);
    MirrorsClose(ds, f, stack);
    MirrorsPush(ds, below, stack[..|f| - 1], section + [k]);
    PossibleAppend(ds, below, section + [k]);
    assert (section + [k])[..|section|] == section;
  }

  lemma MirrorsClose(ds: seq<Directive>, f: Frames, stack: seq<(bool, bool)>)
    requires Mirrors(ds, f, stack) && f != []
    ensures Mirrors(ds, f[..|f| - 1], stack[..|f| - 1])
    ensures Possible(ds, f[..|f| - 1]) == stack[|f| - 1].0
  {
    assert forall s :: 0 <= s < |f| - 1 ==> f[..|f| - 1][..s] == f[..s];
  }

  /** The scan's two variables say what they should about the open sections. */
  ghost predicate Tracks(ds: seq<Directive>, f: Frames, stack: seq<(bool, bool)>, possible: bool) {
    Mirrors(ds, f, stack) && possible == Possible(ds, f)
  }

  /** #if, #ifdef and #ifndef. */
  method OpenSection(ghost ds: seq<Directive>, ghost f: Frames, ghost k: nat, truth: Option<bool>,
                     stack: seq<(bool, bool)>, possible: bool)
    returns (stack': seq<(bool, bool)>, possible': bool)
    requires k < |ds| && Known(ds[k]) == truth && Tracks(ds, f, stack, possible)
    ensures Tracks(ds, f + [[k]], stack', possible')
  {
    MirrorsOpen(ds, f, stack, k);
    stack' := stack + [(possible, truth == Some(true))];
    possible' := possible && truth != Some(false);
  }

  /** #elif, and #else with a condition that is certain. */
  method NextGroup(ghost ds: seq<Directive>, ghost f: Frames, ghost k: nat, truth: Option<bool>,
                   stack: seq<(bool, bool)>, ghost possible: bool)
    returns (stack': seq<(bool, bool)>, possible': bool)
    requires k < |ds| && Known(ds[k]) == truth && Tracks(ds, f, stack, possible) && stack != []
    ensures Tracks(ds, f[..|f| - 1] + [f[|f| - 1] + [k]], stack', possible')
  {
    assert |f| == |stack|;
    var (parent, taken) := stack[|stack| - 1];
    MirrorsNext(ds, f, stack, k);
    stack' := stack[..|stack| - 1] + [(parent, taken || truth == Some(true))];
    possible' := parent && !taken && truth != Some(false);
  }

  /** The condition of a line, evaluated only for #if and #elif. */
  method Condition(d: Directive) returns (truth: Option<bool>)
    ensures truth == Known(d)
  {
    match d {
      case If(expression) =>
        TruthStrip(expression);
        truth := PreprocessorIntegerTruth(Strip(expression));
      case Elif(expression) =>
        TruthStrip(expression);
        truth := PreprocessorIntegerTruth(Strip(expression));
      case Else => truth := Some(true);
      case _ => truth := None;
    }
  }

  function UnmatchedError(d: Directive): MaskError {
    match d
    case Elif(_) => UnmatchedElif
    case Else => UnmatchedElse
    case _ => UnmatchedEndif
  }

  /** One line of the scan: the new stack and whether the following text is possible, or the error. */
  method ScanLine(ghost ds: seq<Directive>, ghost f: Frames, ghost k: nat, d: Directive,
                  stack: seq<(bool, bool)>, possible: bool)
    returns (stack': seq<(bool, bool)>, possible': bool, error: Option<MaskError>)
    requires k < |ds| && ds[k] == d && Tracks(ds, f, stack, possible)
    ensures error == if Push(f, d, k).None? then Some(UnmatchedError(d)) else None
    ensures error.None? ==> Tracks(ds, Push(f, d, k).value, stack', possible')
  {
    stack', possible', error := stack, possible, None;
    if d == Text {
      return;
    }
    var truth := Condition(d);
    if d.If? || d == IfDef {
      stack', possible' := OpenSection(ds, f, k, truth, stack, possible);
    } else if stack == [] {
      error := Some(UnmatchedError(d));
    } else if d == Endif {
      MirrorsClose(ds, f, stack);
      stack', possible' := stack[..|stack| - 1], stack[|stack| - 1].0;
    } else {
      stack', possible' := NextGroup(ds, f, k, truth, stack, possible);
    }
  }

  /** The first `n` lines of the output. */
  ghost function Output(lines: seq<string>, ds: seq<Directive>, n: nat): string
    requires n <= |lines| == |ds| && After(ds, n).Some?
  {
    if n == 0 then ""
    else Output(lines, ds, n - 1) + if Kept(ds, n - 1) then lines[n - 1] else Blank(lines[n - 1])
  }

  /** The directive that has no section to belong to, after a prefix that is complete. */
  predicate UnmatchedAt(ds: seq<Directive>, k: nat, e: MaskError) {
    k < |ds| && After(ds, k) == Some([]) && Push([], ds[k], k).None? && e == UnmatchedError(ds[k])
  }

  lemma {:induction false} AfterNone(ds: seq<Directive>, k: nat, n: nat)
    requires k <= n <= |ds| && After(ds, k) == None
    ensures After(ds, n) == None
  {
    if k < n { AfterNone(ds, k, n - 1); }
  }

  lemma ScanFails(ds: seq<Directive>, k: nat, f: Frames, e: MaskError)
    requires k < |ds| && After(ds, k) == Some(f) && Push(f, ds[k], k).None? && e == UnmatchedError(ds[k])
    ensures After(ds, |ds|) == None && UnmatchedAt(ds, k, e) && e != Unterminated
  {
    AfterNone(ds, k + 1, |ds|);
  }

  lemma OutputStep(lines: seq<string>, ds: seq<Directive>, k: nat, stack: seq<(bool, bool)>, possible: bool)
    requires k < |lines| == |ds| && After(ds, k).Some? && After(ds, k + 1).Some?
    requires Tracks(ds, After(ds, k + 1).value, stack, possible)
    ensures Output(lines, ds, k + 1) ==
              Output(lines, ds, k) + if possible || ds[k] == Endif then lines[k] else Blank(lines[k])
  {
    KeptIff(ds, k);
  }

  method DirectiveOf(lines: seq<string>, k: nat) returns (d: Directive)
    requires k < |lines|
    ensures d == Classified(lines)[k]
  {
    d := Classify(lines[k]);
  }

  /** After `k` lines: the open sections are tracked, and the output so far is right. */
  ghost predicate Scanned(lines: seq<string>, ds: seq<Directive>, k: nat, stack: seq<(bool, bool)>, possible: bool, output: string) {
    && k <= |lines| == |ds| && After(ds, k).Some? && Tracks(ds, After(ds, k).value, stack, possible)
    && output == Output(lines, ds, k)
  }

  /** One line with its output. */
  method MaskNext(lines: seq<string>, ghost ds: seq<Directive>, k: nat, d: Directive, stack: seq<(bool, bool)>, possible: bool,
                  output: string)
    returns (stack': seq<(bool, bool)>, possible': bool, output': string, error: Option<MaskError>)
    requires k < |lines| == |ds| && ds[k] == d && Scanned(lines, ds, k, stack, possible, output)
    ensures error.Some? ==> After(ds, |ds|) == None && UnmatchedAt(ds, k, error.value) && error.value != Unterminated
    ensures error.None? ==> Scanned(lines, ds, k + 1, stack', possible', output')
  {
    ghost var f := After(ds, k).value;
    output' := output;
    stack', possible', error := ScanLine(ds, f, k, d, stack, possible);
    if error.Some? {
      ScanFails(ds, k, f, error.value);
      return;
    }
    OutputStep(lines, ds, k, stack', possible');
    output' := output + if possible' || d == Endif then lines[k] else Blank(lines[k]);
  }

  lemma ScanStarts(lines: seq<string>, ds: seq<Directive>)
    requires |lines| == |ds|
    ensures Scanned(lines, ds, 0, [], true, "")
  {
  }

  lemma ScanEnds(lines: seq<string>, ds: seq<Directive>, stack: seq<(bool, bool)>, possible: bool, output: string)
    requires Scanned(lines, ds, |lines|, stack, possible, output)
    ensures After(ds, |ds|).Some? && (stack == [] <==> After(ds, |ds|).value == []) && output == Output(lines, ds, |ds|)
  {
  }

  /** The scan over all lines. */
  method ScanLines(rawLines: seq<string>, lexicalLines: seq<string>) returns (r: Result<string, MaskError>)
    requires |rawLines| == |lexicalLines|
    ensures var ds := Classified(lexicalLines);
            match r
            case Ok(out) => After(ds, |ds|) == Some([]) && out == Output(rawLines, ds, |ds|)
            case Err(Unterminated) => After(ds, |ds|).Some? && After(ds, |ds|).value != []
            case Err(e) => After(ds, |ds|) == None && exists k :: UnmatchedAt(ds, k, e)
  {
    ghost var ds := Classified(lexicalLines);
    var stack: seq<(bool, bool)> := [];
    var possible := true;
    var output := "";
    var k := 0;
    ScanStarts(rawLines, ds);
    while k < |rawLines|
      invariant k <= |rawLines| && Scanned(rawLines, ds, k, stack, possible, output)
    {
      var d := DirectiveOf(lexicalLines, k);
      var error;
      stack, possible, output, error := MaskNext(rawLines, ds, k, d, stack, possible, output);
      if error.Some? {
        return Err(error.value);
      }
      k := k + 1;
    }
    ScanEnds(rawLines, ds, stack, possible, output);
    if stack != [] {
      return Err(Unterminated);
    }
    return Ok(output);
  }

  // ----- shape of the output -----

  /** A line that is kept is as it was; of any other, every character but the line break is a blank. */
  predicate MaskedLine(masked: string, line: string, kept: bool) {
    && |masked| == |line|
    && forall i :: 0 <= i < |line| ==> masked[i] == if kept || line[i] == '\n' then line[i] else ' '
  }

  ghost predicate MaskedAt(masked: seq<string>, lines: seq<string>, ds: seq<Directive>, k: nat)
    requires k < |masked| == |lines| == |ds|
  {
    After(ds, k + 1).Some? && MaskedLine(masked[k], lines[k], Kept(ds, k))
  }

  ghost predicate MaskedLines(out: string, text: string, ds: seq<Directive>) {
    && |Lines(out)| == |Lines(text)| == |ds|
    && forall k :: 0 <= k < |ds| ==> MaskedAt(Lines(out), Lines(text), ds, k)
  }

  /** The lines of the output, before they are put together. */
  ghost function OutputLines(lines: seq<string>, ds: seq<Directive>, n: nat): (r: seq<string>)
    requires n <= |lines| == |ds| && After(ds, n).Some?
    ensures |r| == n
  {
    if n == 0 then [] else OutputLines(lines, ds, n - 1) + [if Kept(ds, n - 1) then lines[n - 1] else Blank(lines[n - 1])]
  }

  lemma {:induction false} OutputIsLines(lines: seq<string>, ds: seq<Directive>, n: nat)
    requires n <= |lines| == |ds| && After(ds, n).Some?
    ensures Output(lines, ds, n) == Concat(OutputLines(lines, ds, n))
  {
    if n > 0 {
      OutputIsLines(lines, ds, n - 1);
      ConcatLast(OutputLines(lines, ds, n - 1), if Kept(ds, n - 1) then lines[n - 1] else Blank(lines[n - 1]));
    }
  }

  lemma {:induction false} OutputLineAt(lines: seq<string>, ds: seq<Directive>, n: nat, k: nat)
    requires k < n <= |lines| == |ds| && After(ds, n).Some?
    ensures After(ds, k + 1).Some? && OutputLines(lines, ds, n)[k] == if Kept(ds, k) then lines[k] else Blank(lines[k])
  {
    if k < n - 1 { OutputLineAt(lines, ds, n - 1, k); }
  }

  /** Each line of the output has the breaks of its original. */
  predicate SameBreaks(more: seq<string>, lines: seq<string>) {
    && |more| == |lines|
    && forall k :: 0 <= k < |lines| ==>
         |more[k]| == |lines[k]| && forall i :: 0 <= i < |lines[k]| ==> (more[k][i] == '\n' <==> lines[k][i] == '\n')
  }

  lemma SameShape(more: seq<string>, lines: seq<string>)
    requires SameBreaks(more, lines) && LineShape(lines)
    ensures LineShape(more)
  {
  }

  lemma OutputLineMasked(lines: seq<string>, ds: seq<Directive>, k: nat)
    requires k < |lines| == |ds| && After(ds, |ds|).Some?
    ensures MaskedAt(OutputLines(lines, ds, |ds|), lines, ds, k)
  {
    OutputLineAt(lines, ds, |ds|, k);
  }

  lemma MaskedBreaks(masked: string, line: string, kept: bool)
    requires MaskedLine(masked, line, kept)
    ensures |masked| == |line| && forall i :: 0 <= i < |line| ==> (masked[i] == '\n' <==> line[i] == '\n')
  {
  }

  lemma OutputShape(lines: seq<string>, ds: seq<Directive>)
    requires |lines| == |ds| && After(ds, |ds|).Some? && LineShape(lines)
    ensures LineShape(OutputLines(lines, ds, |ds|))
  {
    var more := OutputLines(lines, ds, |ds|);
    forall k | 0 <= k < |ds|
      ensures |more[k]| == |lines[k]| && forall i :: 0 <= i < |lines[k]| ==> (more[k][i] == '\n' <==> lines[k][i] == '\n')
    {
      OutputLineMasked(lines, ds, k);
      MaskedBreaks(more[k], lines[k], Kept(ds, k));
    }
    SameShape(more, lines);
  }

  lemma OutputSplits(text: string, ds: seq<Directive>)
    requires |Lines(text)| == |ds| && After(ds, |ds|).Some?
    ensures Lines(Output(Lines(text), ds, |ds|)) == OutputLines(Lines(text), ds, |ds|)
  {
    LinesShape(text);
    OutputShape(Lines(text), ds);
    OutputIsLines(Lines(text), ds, |ds|);
    LinesUnique(OutputLines(Lines(text), ds, |ds|));
  }

  lemma OutputMasks(text: string, ds: seq<Directive>)
    requires |Lines(text)| == |ds| && After(ds, |ds|).Some?
    ensures MaskedLines(Output(Lines(text), ds, |ds|), text, ds)
  {
    OutputSplits(text, ds);
    forall k | 0 <= k < |ds| ensures MaskedAt(OutputLines(Lines(text), ds, |ds|), Lines(text), ds, k) {
      OutputLineMasked(Lines(text), ds, k);
    }
  }

  /**
   mask_c_definitely_inactive, given the text with its comments and literals blanked. It fails exactly on unbalanced
   directives; otherwise a line that some consistent choice keeps stays as it is, and every other line is blanked.
   */
  method MaskInactive(text: string, lexical: string) returns (r: Result<string, MaskError>)
    requires |Lines(text)| == |Lines(lexical)|
    ensures var ds := Classified(Lines(lexical));
            match r
            case Ok(out) => After(ds, |ds|) == Some([]) && out == Output(Lines(text), ds, |ds|) && MaskedLines(out, text, ds)
            case Err(Unterminated) => After(ds, |ds|).Some? && After(ds, |ds|).value != []
            case Err(e) => After(ds, |ds|) == None && exists k :: UnmatchedAt(ds, k, e)
  {
    r := ScanLines(Lines(text), Lines(lexical));
    if r.Ok? { OutputMasks(text, Classified(Lines(lexical))); }
  }

  lemma {:induction false} ConcatLast(lines: seq<string>, last: string)
    ensures Concat(lines + [last]) == Concat(lines) + last
    decreases |lines|
  {
    if lines == [] {
      assert lines + [last] == [last];
    } else {
      assert (lines + [last])[1..] == lines[1..] + [last];
      ConcatLast(lines[1..], last);
    }
  }

  /** Every character is kept or blanked, and line breaks stay where they are. */
  predicate BlankedFrom(out: string, text: string) {
    |out| == |text| && forall i :: 0 <= i < |text| ==> out[i] == text[i] || (text[i] != '\n' && out[i] == ' ')
  }

  lemma BlankedAppend(a: string, b: string, x: string, y: string)
    requires BlankedFrom(a, x) && BlankedFrom(b, y)
    ensures BlankedFrom(a + b, x + y)
  {
  }

  lemma BlankedOnce(line: string)
    ensures BlankedFrom(line, line) && BlankedFrom(Blank(line), line)
  {
  }

  lemma {:induction false} OutputBlanks(lines: seq<string>, ds: seq<Directive>, n: nat)
    requires n <= |lines| == |ds| && After(ds, n).Some?
    ensures BlankedFrom(Output(lines, ds, n), Concat(lines[..n]))
  {
    if n > 0 {
      var masked := if Kept(ds, n - 1) then lines[n - 1] else Blank(lines[n - 1]);
      OutputBlanks(lines, ds, n - 1);
      BlankedOnce(lines[n - 1]);
      BlankedAppend(Output(lines, ds, n - 1), masked, Concat(lines[..n - 1]), lines[n - 1]);
      ConcatLast(lines[..n - 1], lines[n - 1]);
      assert lines[..n - 1] + [lines[n - 1]] == lines[..n];
    }
  }

  /** The whole output has the length and the line breaks of the input, and differs from it only by blanks. */
  lemma OutputAligned(text: string, lexical: string)
    requires |Lines(text)| == |Lines(lexical)| && After(Classified(Lines(lexical)), |Lines(text)|).Some?
    ensures BlankedFrom(Output(Lines(text), Classified(Lines(lexical)), |Lines(text)|), text)
  {
    OutputBlanks(Lines(text), Classified(Lines(lexical)), |Lines(text)|);
    ConcatLines(text);
    assert Lines(text)[..|Lines(text)|] == Lines(text);
  }

  lemma LineEndIs(t: string, e: nat)
    requires e <= |t| && (e < |t| ==> t[e] == '\n') && forall i :: 0 <= i < e ==> t[i] != '\n'
    ensures LineEnd(t) == e
  {
  }

  lemma SameEnd(text: string, lexical: string)
    requires |text| == |lexical| && forall i :: 0 <= i < |text| ==> (lexical[i] == '\n' <==> text[i] == '\n')
    ensures LineEnd(lexical) == LineEnd(text)
  {
    LineEndIs(lexical, LineEnd(text));
  }

  lemma AlignedRest(text: string, lexical: string, k: nat)
    requires |text| == |lexical| && forall i :: 0 <= i < |text| ==> (lexical[i] == '\n' <==> text[i] == '\n')
    requires k <= |text|
    ensures var (t, l) := (text[k..], lexical[k..]);
            |t| == |l| && forall i :: 0 <= i < |t| ==> (l[i] == '\n' <==> t[i] == '\n')
  {
  }

  /** Blanking comments and literals in place keeps the lines in step. */
  lemma {:induction false} AlignedLines(text: string, lexical: string)
    requires |text| == |lexical| && forall i :: 0 <= i < |text| ==> (lexical[i] == '\n' <==> text[i] == '\n')
    ensures |Lines(text)| == |Lines(lexical)|
    decreases |text|
  {
    var e := LineEnd(text);
    SameEnd(text, lexical);
    if e < |text| {
      AlignedRest(text, lexical, e + 1);
      AlignedLines(text[e + 1..], lexical[e + 1..]);
    }
  }
}
