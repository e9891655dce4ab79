/** The evaluator of literal preprocessor conditions: parentheses, '!' and directly signed integer literals. */
module IntegerTruth {
  import opened Sequences

  // ----- characters and literals -----

  /** The white space str.strip() removes. */
  predicate Space(c: char) {
    var k := c as int;
    || 9 <= k <= 13 || 28 <= k <= 32 || k == 0x85 || k == 0xA0 || k == 0x1680 || 0x2000 <= k <= 0x200A
    || k == 0x2028 || k == 0x2029 || k == 0x202F || k == 0x205F || k == 0x3000
  }

  function TrimLeft(s: string): string { if s != "" && Space(s[0]) then TrimLeft(s[1..]) else s }

  function TrimRight(s: string): string {
    if s != "" && Space(s[|s| - 1]) then TrimRight(s[..|s| - 1]) else s
  }

  function Strip(s: string): string { TrimRight(TrimLeft(s)) }

  function Digit(c: char): nat {
    if '0' <= c <= '9' then c as nat - '0' as nat
    else if 'a' <= c <= 'f' then c as nat - 'a' as nat + 10
    else if 'A' <= c <= 'F' then c as nat - 'A' as nat + 10
    else 99
  }

  predicate Digits(s: string, base: nat) { forall i :: 0 <= i < |s| ==> Digit(s[i]) < base }

  function Value(s: string, base: nat): int {
    if s == "" then 0 else Value(s[..|s| - 1], base) * base + Digit(s[|s| - 1])
  }

  predicate Suffix(s: string) { forall i :: 0 <= i < |s| ==> s[i] in "uUlL" }

  function DropSuffix(s: string): string {
    if s != "" && s[|s| - 1] in "uUlL" then DropSuffix(s[..|s| - 1]) else s
  }

  /** The digits of an unsigned literal without its suffix: prefix and base decide the value. */
  function Number(s: string): Option<int> {
    if |s| >= 3 && s[0] == '0' && s[1] in "xX" && Digits(s[2..], 16) then Some(Value(s[2..], 16))
    else if |s| >= 3 && s[0] == '0' && s[1] in "bB" && Digits(s[2..], 2) then Some(Value(s[2..], 2))
    else if |s| >= 1 && s[0] == '0' && Digits(s, 8) then Some(Value(s, 8))
    else if |s| >= 1 && '1' <= s[0] <= '9' && Digits(s, 10) then Some(Value(s, 10))
    else None
  }

  /** The full match of the literal pattern, with the value it denotes. */
  function Literal(s: string): Option<int> {
    var signed := s != "" && s[0] in "+-";
    match Number(DropSuffix(if signed then s[1..] else s))
    case None => None
    case Some(v) => Some(if signed && s[0] == '-' then -v else v)
  }

  /** The pattern as a grammar: sign, digits, suffix. */
  predicate LiteralParts(s: string, sign: string, number: string, suffix: string) {
    s == sign + number + suffix && sign in ["", "+", "-"] && Suffix(suffix) && Number(number).Some?
  }

  lemma {:induction false} DropSuffixParts(s: string)
    ensures |DropSuffix(s)| <= |s| && s[..|DropSuffix(s)|] == DropSuffix(s) && Suffix(s[|DropSuffix(s)|..])
    ensures DropSuffix(s) != "" ==> DropSuffix(s)[|DropSuffix(s)| - 1] !in "uUlL"
  {
    if s != "" && s[|s| - 1] in "uUlL" {
      var (front, n) := (s[..|s| - 1], |DropSuffix(s)|);
      DropSuffixParts(front);
      assert s[..n] == front[..n] && s[n..] == front[n..] + [s[|s| - 1]];
    }
  }

  lemma {:induction false} DropSuffixOf(number: string, suffix: string)
    requires Suffix(suffix) && (number == "" || number[|number| - 1] !in "uUlL")
    ensures DropSuffix(number + suffix) == number
    decreases |suffix|
  {
    var s := number + suffix;
    if suffix == "" {
      assert s == number;
    } else {
      assert s[..|s| - 1] == number + suffix[..|suffix| - 1];
      DropSuffixOf(number, suffix[..|suffix| - 1]);
    }
  }

  lemma NumberEnds(s: string)
    requires Number(s).Some?
    ensures s != "" && s[0] !in "+-!( )" && Digit(s[|s| - 1]) < 16 && s[|s| - 1] !in "uUlL"
  {
  }

  lemma LiteralOfParts(s: string, sign: string, number: string, suffix: string)
    requires LiteralParts(s, sign, number, suffix)
    ensures Literal(s) == Some(if sign == "-" then -Number(number).value else Number(number).value)
  {
    NumberEnds(number);
    DropSuffixOf(number, suffix);
    if sign == "" {
      assert s == number + suffix;
      assert s[0] == number[0];
    } else {
      assert s[1..] == number + suffix;
      assert s[0] == sign[0];
    }
  }

  lemma LiteralNumber(s: string)
    requires Literal(s).Some?
    ensures |SignOf(s)| <= |s| && s == SignOf(s) + s[|SignOf(s)|..] && Number(DropSuffix(s[|SignOf(s)|..])).Some?
  {
  }

  lemma PartsOfLiteral(s: string) returns (sign: string, number: string, suffix: string)
    requires Literal(s).Some?
    ensures LiteralParts(s, sign, number, suffix)
  {
    LiteralNumber(s);
    sign := SignOf(s);
    var rest := s[|sign|..];
    DropSuffixParts(rest);
    number, suffix := DropSuffix(rest), rest[|DropSuffix(rest)|..];
    assert rest == number + suffix;
    Regroup(sign, number, suffix);
  }

  function SignOf(s: string): (sign: string)
    ensures sign in ["", "+", "-"]
  {
    if s != "" && s[0] in "+-" then [s[0]] else ""
  }

  lemma Regroup(a: string, b: string, c: string)
    ensures a + (b + c) == a + b + c
  {
  }

  /** The scan recognises exactly the strings of the grammar; LiteralOfParts gives their value. */
  lemma LiteralIff(s: string)
    ensures Literal(s).Some? <==> exists sign, number, suffix :: LiteralParts(s, sign, number, suffix)
  {
    if Literal(s).Some? {
      var sign, number, suffix := PartsOfLiteral(s);
    }
    if sign, number, suffix :| LiteralParts(s, sign, number, suffix) {
      LiteralOfParts(s, sign, number, suffix);
    }
  }

  // ----- literals as they are written -----

  predicate AllIn(s: string, chars: set<char>) { forall i :: 0 <= i < |s| ==> s[i] in chars }

  const Binary: set<char> := {'0', '1'}
  const Octal: set<char> := {'0', '1', '2', '3', '4', '5', '6', '7'}
  const DecimalSet: set<char> := {'0', '1', '2', '3', '4', '5', '6', '7', '8', '9'}
  const Hexadecimal: set<char> :=
    {'0', '1', '2', '3', '4', '5', '6', '7', '8', '9', 'a', 'b', 'c', 'd', 'e', 'f', 'A', 'B', 'C', 'D', 'E', 'F'}

  lemma DigitSets(c: char)
    ensures (Digit(c) < 2 <==> c in Binary) && (Digit(c) < 8 <==> c in Octal)
    ensures (Digit(c) < 10 <==> c in DecimalSet) && (Digit(c) < 16 <==> c in Hexadecimal)
  {
  }

  lemma DigitsAreIn(s: string)
    ensures (Digits(s, 2) <==> AllIn(s, Binary)) && (Digits(s, 8) <==> AllIn(s, Octal))
    ensures (Digits(s, 10) <==> AllIn(s, DecimalSet)) && (Digits(s, 16) <==> AllIn(s, Hexadecimal))
  {
    forall i | 0 <= i < |s|
      ensures (Digit(s[i]) < 2 <==> s[i] in Binary) && (Digit(s[i]) < 8 <==> s[i] in Octal)
      ensures (Digit(s[i]) < 10 <==> s[i] in DecimalSet) && (Digit(s[i]) < 16 <==> s[i] in Hexadecimal)
    {
      DigitSets(s[i]);
    }
  }

  /** The four forms of a number, by the characters they are made of. */
  lemma NumberForms(s: string)
    ensures Number(s).Some? <==>
              || (|s| > 2 && s[0] == '0' && s[1] in {'x', 'X'} && AllIn(s[2..], Hexadecimal))
              || (|s| > 2 && s[0] == '0' && s[1] in {'b', 'B'} && AllIn(s[2..], Binary))
              || (|s| > 0 && s[0] == '0' && AllIn(s, Octal))
              || (|s| > 0 && s[0] in DecimalSet - {'0'} && AllIn(s, DecimalSet))
  {
    DigitsAreIn(s);
    if |s| > 2 { DigitsAreIn(s[2..]); }
    if |s| > 0 { DigitSets(s[0]); }
  }

  function Glyph(d: nat, capitals: bool): (c: char)
    requires d < 16
    ensures Digit(c) == d
  {
    if d < 10 then ('0' as int + d) as char else ((if capitals then 'A' else 'a') as int + d - 10) as char
  }

  /** The usual notation of a number. */
  function Numeral(n: nat, base: nat, capitals: bool): string
    requires 2 <= base <= 16
  {
    if n < base then [Glyph(n, capitals)] else Numeral(n / base, base, capitals) + [Glyph(n % base, capitals)]
  }

  lemma {:induction false} NumeralValue(n: nat, base: nat, capitals: bool)
    requires 2 <= base <= 16
    ensures Digits(Numeral(n, base, capitals), base) && Value(Numeral(n, base, capitals), base) == n
    ensures Numeral(n, base, capitals) != "" && (n > 0 ==> Numeral(n, base, capitals)[0] != '0')
    decreases n
  {
    if n < base {
      OneDigit(Glyph(n, capitals), base);
    } else {
      QuotientPositive(n, base);
      NumeralValue(n / base, base, capitals);
      MoreDigits(Numeral(n / base, base, capitals), Glyph(n % base, capitals), base);
    }
  }

  lemma OneDigit(c: char, base: nat)
    requires Digit(c) < base
    ensures Digits([c], base) && Value([c], base) == Digit(c)
  {
    assert [c][..0] == "";
  }

  lemma MoreDigits(s: string, c: char, base: nat)
    requires Digits(s, base) && Digit(c) < base
    ensures Digits(s + [c], base) && Value(s + [c], base) == Value(s, base) * base + Digit(c)
  {
    assert (s + [c])[..|s|] == s;
  }

  lemma QuotientPositive(n: nat, base: nat)
    requires 2 <= base <= n
    ensures 0 < n / base < n && n / base * base + n % base == n
  {
  }

  /** Reading undoes writing, in each base, for every number. */
  lemma NumeralsAreRead(n: nat, capitals: bool)
    ensures Number("0x" + Numeral(n, 16, capitals)) == Number("0X" + Numeral(n, 16, capitals)) == Some(n)
    ensures Number("0b" + Numeral(n, 2, capitals)) == Number("0B" + Numeral(n, 2, capitals)) == Some(n)
    ensures Number("0" + Numeral(n, 8, capitals)) == Some(n)
    ensures n > 0 ==> Number(Numeral(n, 10, capitals)) == Some(n)
  {
    PrefixedValue(n, 16, capitals, "0x");
    PrefixedValue(n, 16, capitals, "0X");
    PrefixedValue(n, 2, capitals, "0b");
    PrefixedValue(n, 2, capitals, "0B");
    OctalIsRead(n, capitals);
    if n > 0 { DecimalIsRead(n, capitals); }
  }

  lemma PrefixedValue(n: nat, base: nat, capitals: bool, prefix: string)
    requires (base == 16 && prefix in ["0x", "0X"]) || (base == 2 && prefix in ["0b", "0B"])
    ensures Number(prefix + Numeral(n, base, capitals)) == Some(n)
  {
    NumeralValue(n, base, capitals);
    assert (prefix + Numeral(n, base, capitals))[2..] == Numeral(n, base, capitals);
  }

  lemma DecimalIsRead(n: nat, capitals: bool)
    requires n > 0
    ensures Number(Numeral(n, 10, capitals)) == Some(n)
  {
    NumeralValue(n, 10, capitals);
    var s := Numeral(n, 10, capitals);
    assert Digit(s[0]) < 10;
  }

  lemma OctalForm(digits: string)
    requires digits != "" && Digits(digits, 8)
    ensures Number("0" + digits) == Some(Value("0" + digits, 8))
  {
    var s := "0" + digits;
    assert s[1] == digits[0] && Digit(digits[0]) < 8;
    assert Digits(s, 8);
  }

  lemma OctalIsRead(n: nat, capitals: bool)
    ensures Number("0" + Numeral(n, 8, capitals)) == Some(n)
  {
    var digits := Numeral(n, 8, capitals);
    NumeralValue(n, 8, capitals);
    LeadingZero(digits, 8);
    OctalForm(digits);
  }

  lemma {:induction false} LeadingZero(s: string, base: nat)
    ensures Value("0" + s, base) == Value(s, base)
    decreases |s|
  {
    var t := "0" + s;
    if s == "" {
      assert t[..0] == "";
    } else {
      assert t[..|t| - 1] == "0" + s[..|s| - 1];
      LeadingZero(s[..|s| - 1], base);
    }
  }

  // ----- white space -----

  predicate Spaces(s: string) { forall i :: 0 <= i < |s| ==> Space(s[i]) }

  /** Neither end is white space. */
  predicate Trimmed(s: string) { s == "" || (!Space(s[0]) && !Space(s[|s| - 1])) }

  lemma SpacesCons(c: char, s: string)
    requires Space(c) && Spaces(s)
    ensures Spaces([c] + s)
  {
  }

  lemma SpacesSnoc(s: string, c: char)
    requires Spaces(s) && Space(c)
    ensures Spaces(s + [c])
  {
  }

  lemma {:induction false} TrimLeftParts(s: string) returns (a: string)
    ensures Spaces(a) && s == a + TrimLeft(s) && (TrimLeft(s) == "" || !Space(TrimLeft(s)[0]))
    decreases |s|
  {
    if s != "" && Space(s[0]) {
      var tail := TrimLeftParts(s[1..]);
      a := [s[0]] + tail;
      SpacesCons(s[0], tail);
      assert s == [s[0]] + (tail + TrimLeft(s[1..]));
    } else {
      a := "";
    }
  }

  lemma {:induction false} TrimRightParts(s: string) returns (b: string)
    ensures Spaces(b) && s == TrimRight(s) + b && (TrimRight(s) == "" || !Space(TrimRight(s)[|TrimRight(s)| - 1]))
    decreases |s|
  {
    if s != "" && Space(s[|s| - 1]) {
      var head := TrimRightParts(s[..|s| - 1]);
      b := head + [s[|s| - 1]];
      SpacesSnoc(head, s[|s| - 1]);
      assert s == (TrimRight(s[..|s| - 1]) + head) + [s[|s| - 1]];
    } else {
      b := "";
    }
  }

  /** Stripping removes white space at both ends, and all of it. */
  lemma StripParts(s: string) returns (a: string, b: string)
    ensures Spaces(a) && Spaces(b) && s == a + Strip(s) + b && Trimmed(Strip(s))
  {
    a := TrimLeftParts(s);
    b := TrimRightParts(TrimLeft(s));
    if Strip(s) != "" { assert Strip(s)[0] == TrimLeft(s)[0]; }
  }

  // ----- expressions -----

  datatype Expr = Lit(value: int) | Not(operand: Expr) | Paren(inner: Expr)

  /** The value C gives the expression (section 6.5.3.3 of ISO/IEC 9899:2011 for '!'). */
  function Eval(e: Expr): int {
    match e
    case Lit(v) => v
    case Not(x) => if Eval(x) == 0 then 1 else 0
    case Paren(x) => Eval(x)
  }

  predicate Enclosed(s: string) { |s| >= 2 && s[0] == '(' && s[|s| - 1] == ')' }

  /** The text, with any white space around its parts, is that expression. */
  predicate Renders(e: Expr, s: string)
    decreases e
  {
    var t := Strip(s);
    match e
    case Lit(v) => Literal(t) == Some(v)
    case Not(x) => t != "" && t[0] == '!' && Renders(x, t[1..])
    case Paren(x) => Enclosed(t) && Renders(x, t[1..|t| - 1])
  }

  /** The truth of a text that is an expression of the fragment; nothing for any other text. */
  ghost function Truth(s: string): Option<bool> {
    if exists e :: Renders(e, s) then
      var e :| Renders(e, s);
      Some(Eval(e) != 0)
    else None
  }

  lemma LiteralStart(s: string)
    requires Literal(s).Some?
    ensures s != "" && s[0] !in "!("
  {
    if s[0] !in "+-" {
      DropSuffixParts(s);
      NumberEnds(DropSuffix(s));
    }
  }

  /** A text is at most one expression. */
  lemma {:induction false} RendersUnique(e: Expr, f: Expr, s: string)
    requires Renders(e, s) && Renders(f, s)
    ensures e == f
    decreases e
  {
    var t := Strip(s);
    if e.Lit? || f.Lit? {
      LiteralStart(t);
    } else if e.Not? {
      RendersUnique(e.operand, f.operand, t[1..]);
    } else {
      RendersUnique(e.inner, f.inner, t[1..|t| - 1]);
    }
  }

  lemma TruthIs(e: Expr, s: string)
    requires Renders(e, s)
    ensures Truth(s) == Some(Eval(e) != 0)
  {
    var f :| Renders(f, s) && Truth(s) == Some(Eval(f) != 0);
    RendersUnique(e, f, s);
  }

  // ----- stripping -----

  lemma TrimRightKeepsLeft(s: string)
    requires s == "" || !Space(s[0])
    ensures TrimRight(s) == "" || !Space(TrimRight(s)[0])
  {
  }

  lemma StripTwice(s: string)
    ensures Strip(Strip(s)) == Strip(s) && |Strip(s)| <= |s|
  {
    TrimLeftEnds(s);
    TrimRightKeepsLeft(TrimLeft(s));
    TrimRightEnds(TrimLeft(s));
  }

  lemma TrimLeftEnds(s: string)
    ensures |TrimLeft(s)| <= |s| && (TrimLeft(s) == "" || !Space(TrimLeft(s)[0]))
  {
  }

  lemma TrimRightEnds(s: string)
    ensures |TrimRight(s)| <= |s| && TrimRight(TrimRight(s)) == TrimRight(s)
  {
  }

  lemma TruthStrip(s: string)
    ensures Truth(Strip(s)) == Truth(s)
  {
    StripTwice(s);
    if e :| Renders(e, s) {
      assert Renders(e, Strip(s)) by { SameRendering(e, s, Strip(s)); }
      TruthIs(e, s);
      TruthIs(e, Strip(s));
    } else if e :| Renders(e, Strip(s)) {
      SameRendering(e, Strip(s), s);
      assert false;
    }
  }

  lemma SameRendering(e: Expr, s: string, r: string)
    requires Strip(s) == Strip(r) && Renders(e, s)
    ensures Renders(e, r)
  {
  }

  // ----- the three shapes -----

  /** The first character of a stripped text decides which expression it can be. */
  lemma Shape(e: Expr, t: string)
    requires Strip(t) == t && Renders(e, t)
    ensures t != ""
    ensures e.Not? <==> t[0] == '!'
    ensures e.Paren? <==> t[0] == '('
    ensures e.Not? ==> Renders(e.operand, t[1..])
    ensures e.Paren? ==> Enclosed(t) && Renders(e.inner, t[1..|t| - 1])
  {
    if e.Lit? { LiteralStart(t); }
  }

  lemma TruthEnclosed(t: string)
    requires Strip(t) == t && Enclosed(t)
    ensures Truth(t) == Truth(t[1..|t| - 1])
  {
    var inner := t[1..|t| - 1];
    if x :| Renders(x, inner) {
      assert Renders(Paren(x), t);
      TruthIs(x, inner);
      TruthIs(Paren(x), t);
    } else if e :| Renders(e, t) {
      Shape(e, t);
    }
  }

  lemma TruthNegated(t: string)
    requires Strip(t) == t && t != "" && t[0] == '!'
    ensures Truth(t) == match Truth(t[1..]) case None => None case Some(b) => Some(!b)
  {
    var operand := t[1..];
    if x :| Renders(x, operand) {
      assert Renders(Not(x), t);
      TruthIs(x, operand);
      TruthIs(Not(x), t);
    } else if e :| Renders(e, t) {
      Shape(e, t);
    }
  }

  lemma TruthLiteral(t: string)
    requires Strip(t) == t && !(t != "" && t[0] == '!') && !Enclosed(t)
    ensures Truth(t) == match Literal(t) case None => None case Some(v) => Some(v != 0)
  {
    if Literal(t).Some? {
      assert Renders(Lit(Literal(t).value), t);
      TruthIs(Lit(Literal(t).value), t);
    } else if e :| Renders(e, t) {
      Shape(e, t);
    }
  }

  // ----- balance -----

  function Depth(s: string): int {
    if s == "" then 0
    else Depth(s[..|s| - 1]) + (if s[|s| - 1] == '(' then 1 else if s[|s| - 1] == ')' then -1 else 0)
  }

  predicate Balanced(s: string) { Depth(s) == 0 && forall i :: 0 <= i <= |s| ==> Depth(s[..i]) >= 0 }

  lemma {:induction false} DepthAppend(a: string, b: string)
    ensures Depth(a + b) == Depth(a) + Depth(b)
    decreases |b|
  {
    if b == "" {
      assert a + b == a;
    } else {
      assert (a + b)[..|a + b| - 1] == a + b[..|b| - 1];
      DepthAppend(a, b[..|b| - 1]);
    }
  }

  lemma BalancedAppend(a: string, b: string)
    requires Balanced(a) && Balanced(b)
    ensures Balanced(a + b)
  {
    DepthAppend(a, b);
    forall i | 0 <= i <= |a + b| ensures Depth((a + b)[..i]) >= 0 {
      if i <= |a| {
        assert (a + b)[..i] == a[..i];
      } else {
        assert (a + b)[..i] == a + b[..i - |a|];
        DepthAppend(a, b[..i - |a|]);
      }
    }
  }

  lemma {:induction false} Flat(s: string)
    requires forall i :: 0 <= i < |s| ==> s[i] != '(' && s[i] != ')'
    ensures Balanced(s)
    decreases |s|
  {
    if s == "" {
      assert s[..0] == "";
    } else {
      var front := s[..|s| - 1];
      Flat(front);
      forall i | 0 <= i <= |s| ensures Depth(s[..i]) >= 0 {
        if i < |s| { assert s[..i] == front[..i]; } else { assert s[..i] == s; }
      }
    }
  }

  lemma {:induction false} BalancedTrimLeft(s: string)
    requires Balanced(TrimLeft(s))
    ensures Balanced(s)
    decreases |s|
  {
    if s != "" && Space(s[0]) {
      BalancedTrimLeft(s[1..]);
      Flat(s[..1]);
      BalancedAppend(s[..1], s[1..]);
      assert s[..1] + s[1..] == s;
    }
  }

  lemma {:induction false} BalancedTrimRight(s: string)
    requires Balanced(TrimRight(s))
    ensures Balanced(s)
    decreases |s|
  {
    if s != "" && Space(s[|s| - 1]) {
      BalancedTrimRight(s[..|s| - 1]);
      Flat(s[|s| - 1..]);
      BalancedAppend(s[..|s| - 1], s[|s| - 1..]);
      assert s[..|s| - 1] + s[|s| - 1..] == s;
    }
  }

  /** Inside its own parentheses, a balanced text never returns to depth zero. */
  lemma EnclosedDepth(t: string, i: nat)
    requires Enclosed(t) && Balanced(t[1..|t| - 1]) && 1 <= i <= |t|
    ensures Depth(t[..i]) == 0 <==> i == |t|
    ensures Depth(t[..i]) >= 0
  {
    var x := t[1..|t| - 1];
    if i < |t| {
      assert t[..i] == "(" + x[..i - 1];
      DepthAppend("(", x[..i - 1]);
      assert Depth("(") == 1 by { assert "("[..0] == ""; }
    } else {
      EnclosedDepth(t, |t| - 1);
      assert t[..|t| - 1] == "(" + x;
      DepthAppend("(", x);
      assert Depth("(") == 1 by { assert "("[..0] == ""; }
      assert t[..i] == t;
      assert Depth(t) == Depth(t[..|t| - 1]) - 1;
    }
  }

  lemma EnclosedBalanced(t: string)
    requires Enclosed(t) && Balanced(t[1..|t| - 1])
    ensures Balanced(t)
  {
    forall i | 0 <= i <= |t| ensures Depth(t[..i]) >= 0 {
      if i > 0 { EnclosedDepth(t, i); }
    }
    EnclosedDepth(t, |t|);
    assert t[..|t|] == t;
  }

  lemma LiteralFlat(s: string)
    requires Literal(s).Some?
    ensures forall i :: 0 <= i < |s| ==> s[i] != '(' && s[i] != ')'
  {
    var sign, number, suffix := PartsOfLiteral(s);
    forall i | 0 <= i < |number| ensures number[i] != '(' && number[i] != ')' {
      if i >= 2 { assert number[2..][i - 2] == number[i]; }
    }
  }

  lemma {:induction false} RendersBalanced(e: Expr, s: string)
    requires Renders(e, s)
    ensures Balanced(s)
    decreases e
  {
    var t := Strip(s);
    match e {
      case Lit(_) =>
        LiteralFlat(t);
        Flat(t);
      case Not(x) =>
        RendersBalanced(x, t[1..]);
        Flat(t[..1]);
        BalancedAppend(t[..1], t[1..]);
        assert t[..1] + t[1..] == t;
      case Paren(x) =>
        RendersBalanced(x, t[1..|t| - 1]);
        EnclosedBalanced(t);
    }
    BalancedTrimRight(TrimLeft(s));
    BalancedTrimLeft(s);
  }

  /** The early exit of the depth scan: a parenthesis that closes too soon rules every expression out. */
  lemma NotWrapped(t: string, i: nat)
    requires Strip(t) == t && Enclosed(t) && 1 <= i <= |t|
    requires if i < |t| then Depth(t[..i]) == 0 else Depth(t) != 0
    ensures Truth(t) == None
  {
    if e :| Renders(e, t) {
      Shape(e, t);
      assert t[..|t|] == t;
      RendersBalanced(e.inner, t[1..|t| - 1]);
      EnclosedDepth(t, i);
    }
  }

  // ----- the evaluator -----

  /** The scan of one candidate: does its first parenthesis close only at its end? The depth never falls below zero. */
  method WrapsEntire(t: string) returns (wraps: bool)
    requires Strip(t) == t && Enclosed(t)
    ensures !wraps ==> Truth(t) == None
  {
    var depth := 0;
    var index := 0;
    while index < |t|
      invariant index <= |t| && depth == Depth(t[..index])
      invariant index > 0 ==> depth >= 0
      invariant 0 < index < |t| ==> depth > 0
    {
      assert t[..index + 1][..index] == t[..index];
      if t[index] == '(' {
        depth := depth + 1;
      } else if t[index] == ')' {
        depth := depth - 1;
        if depth == 0 && index != |t| - 1 {
          NotWrapped(t, index + 1);
          return false;
        }
      }
      assert depth >= 0;
      index := index + 1;
    }
    assert t[..|t|] == t;
    if depth != 0 {
      NotWrapped(t, |t|);
    }
    return depth == 0;
  }

  /** A definite answer exactly for the texts of the fragment, and then the truth of the expression's value. */
  method PreprocessorIntegerTruth(expression: string) returns (truth: Option<bool>)
    ensures truth == Truth(expression)
    decreases |expression|
  {
    var candidate := Strip(expression);
    StripTwice(expression);
    TruthStrip(expression);
    var wraps := true;
    while wraps && Enclosed(candidate)
      invariant Truth(candidate) == Truth(expression) && Strip(candidate) == candidate && |candidate| <= |expression|
      invariant !wraps ==> Enclosed(candidate) && Truth(candidate) == None
      decreases |candidate|, wraps
    {
      wraps := WrapsEntire(candidate);
      if wraps {
        TruthEnclosed(candidate);
        var inner := candidate[1..|candidate| - 1];
        TruthStrip(inner);
        StripTwice(inner);
        candidate := Strip(inner);
      }
    }
    if candidate != "" && candidate[0] == '!' {
      TruthNegated(candidate);
      var nested := PreprocessorIntegerTruth(candidate[1..]);
      return match nested case None => None case Some(b) => Some(!b);
    }
    if !wraps {
      if Literal(candidate).Some? { LiteralStart(candidate); }
    } else {
      TruthLiteral(candidate);
    }
    return match Literal(candidate) case None => None case Some(v) => Some(v != 0);
  }
}
