/**
 The language that `JsonReader` (tools/localjson.py) accepts, as a grammar: trees
 with the text and the value each stands for.  The reader is proved to return the
 value of every such text, and to accept nothing else.
 */
module JsonGrammar {
  import opened Json

  // ---------------------------------------------------------------------------
  // White space and comments

  /** Python's `string.whitespace`. */
  predicate White(c: char) {
    c == ' ' || c == '\t' || c == '\n' || c == '\r' || c == '\U{000B}' || c == '\U{000C}'
  }

  datatype Filler = Blank(c: char) | Line(text: string, end: char) | Block(text: string)

  predicate EndsLine(c: char) { c == '\r' || c == '\n' }

  /** The two characters at `i` close, or open, a block comment. */
  predicate ClosesAt(s: string, i: nat) { i + 1 < |s| && s[i] == '*' && s[i + 1] == '/' }
  predicate OpensAt(s: string, i: nat) { i + 1 < |s| && s[i] == '/' && s[i + 1] == '*' }

  predicate ValidFiller(f: Filler) {
    match f
    case Blank(c) => White(c)
    case Line(text, end) => EndsLine(end) && forall i :: 0 <= i < |text| ==> !EndsLine(text[i])
    case Block(text) => forall i :: 0 <= i < |text| ==> !ClosesAt(text + "*/", i) && !OpensAt(text + "*/", i)
  }

  function FillerText(f: Filler): string {
    match f
    case Blank(c) => [c]
    case Line(text, end) => "//" + text + [end]
    case Block(text) => "/*" + text + "*/"
  }

  type Gap = seq<Filler>

  predicate ValidGap(g: Gap) { forall i :: 0 <= i < |g| ==> ValidFiller(g[i]) }

  function GapText(g: Gap): string { if g == [] then [] else FillerText(g[0]) + GapText(g[1..]) }

  lemma {:induction false} LineSkipped(text: string, end: char, s: string)
    requires ValidFiller(Line(text, end))
    ensures SkipLine(text + [end] + s) == s
  {
    var all := text + [end] + s;
    if text == [] {
      assert all[0] == end && all[1..] == s;
    } else {
      assert !EndsLine(text[0]);
      LineSkipped(text[1..], end, s);
      assert all[0] == text[0] && all[1..] == text[1..] + [end] + s;
    }
  }

  lemma {:induction false} BlockSkipped(text: string, s: string)
    requires ValidFiller(Block(text))
    ensures SkipBlock(text + "*/" + s) == Ok((), s)
  {
    var w := text + "*/";
    var all := w + s;
    if text == [] {
      assert all[0] == '*' && all[1] == '/' && all[2..] == s;
    } else {
      assert !ClosesAt(w, 0) && !OpensAt(w, 0);
      assert w[1..] == text[1..] + "*/";
      forall i | 0 <= i < |text[1..]| ensures !ClosesAt(text[1..] + "*/", i) && !OpensAt(text[1..] + "*/", i) {
        assert !ClosesAt(w, i + 1) && !OpensAt(w, i + 1);
      }
      BlockSkipped(text[1..], s);
      assert all[0] == w[0] && all[1] == w[1] && all[1..] == text[1..] + "*/" + s;
    }
  }

  lemma LineCommentSkipped(text: string, end: char, s: string)
    requires ValidFiller(Line(text, end))
    ensures SkipSpace("//" + text + [end] + s) == SkipSpace(s)
  {
    hide ValidFiller, SkipLine;
    var all := "//" + text + [end] + s;
    LineSkipped(text, end, s);
    assert all[0] == '/' && all[1] == '/' && all[2..] == text + [end] + s;
  }

  lemma BlockCommentSkipped(text: string, s: string)
    requires ValidFiller(Block(text))
    ensures SkipSpace("/*" + text + "*/" + s) == SkipSpace(s)
  {
    hide ValidFiller, SkipBlock;
    var all := "/*" + text + "*/" + s;
    BlockSkipped(text, s);
    assert all[0] == '/' && all[1] == '*' && all[2..] == text + "*/" + s;
  }

  lemma BlankSkipped(c: char, s: string)
    requires IsSpace(c)
    ensures SkipSpace([c] + s) == SkipSpace(s)
  {
    assert ([c] + s)[1..] == s;
  }

  lemma FillerSkipped(f: Filler, s: string)
    requires ValidFiller(f)
    ensures SkipSpace(FillerText(f) + s) == SkipSpace(s)
  {
    hide SkipSpace;
    match f
    case Blank(c) => BlankSkipped(c, s);
    case Line(text, end) => LineCommentSkipped(text, end, s);
    case Block(text) => BlockCommentSkipped(text, s);
  }

  /** A gap in front of something solid, or of the end, is skipped, and nothing more. */
  lemma {:induction false} GapSkipped(g: Gap, s: string)
    requires ValidGap(g) && (s == [] || Solid(s))
    ensures SkipSpace(GapText(g) + s) == Ok((), s)
  {
    hide SkipSpace, ValidFiller, FillerText;
    if g == [] {
      assert GapText(g) + s == s;
      SkipNothing(s);
    } else {
      GapSkipped(g[1..], s);
      FillerSkipped(g[0], GapText(g[1..]) + s);
      assert GapText(g) + s == FillerText(g[0]) + (GapText(g[1..]) + s);
    }
  }

  lemma {:induction false} LineFound(s: string) returns (text: string, end: char)
    requires SkipLine(s) != []
    ensures ValidFiller(Line(text, end)) && text + [end] + SkipLine(s) == s
  {
    if EndsLine(s[0]) {
      text, end := [], s[0];
    } else {
      text, end := LineFound(s[1..]);
      assert s == [s[0]] + s[1..];
      text := [s[0]] + text;
    }
  }

  /** One more character in front of a block comment's text. */
  lemma BlockLonger(c: char, t: string)
    requires ValidFiller(Block(t)) && !ClosesAt([c] + (t + "*/"), 0) && !OpensAt([c] + (t + "*/"), 0)
    ensures ValidFiller(Block([c] + t))
  {
    var w := [c] + t + "*/";
    assert w == [c] + (t + "*/");
    forall i | 0 <= i < |[c] + t| ensures !ClosesAt(w, i) && !OpensAt(w, i) {
      if i > 0 { assert !ClosesAt(t + "*/", i - 1) && !OpensAt(t + "*/", i - 1); }
    }
  }

  lemma {:induction false} BlockFound(s: string) returns (text: string)
    requires SkipBlock(s).Ok?
    ensures ValidFiller(Block(text)) && text + "*/" + SkipBlock(s).rest == s
  {
    hide ValidFiller;
    if |s| > 1 && s[0] == '*' && s[1] == '/' {
      text := [];
      NoText();
      assert s == "*/" + s[2..];
    } else {
      var t := BlockFound(s[1..]);
      HeadFirst(s, t, SkipBlock(s[1..]).rest);
      BlockLonger(s[0], t);
      text := [s[0]] + t;
    }
  }

  lemma HeadFirst(s: string, t: string, rest: string)
    requires s != [] && t + "*/" + rest == s[1..]
    ensures [s[0]] + t + "*/" + rest == s && |s| > 1 && s[1] == (t + "*/")[0]
  {
    assert s == [s[0]] + (t + "*/" + rest);
  }

  lemma NoText()
    ensures ValidFiller(Block([]))
  {
  }

  lemma SolidStart(s: string)
    requires s != []
    ensures !IsSpace(s[0]) && s[0] != '/' ==> SkipSpace(s) == Ok((), s)
  {
  }

  lemma EmptyStart()
    ensures SkipSpace([]) == Ok((), [])
  {
  }

  lemma GapCons(f: Filler, g: Gap)
    requires ValidFiller(f) && ValidGap(g)
    ensures ValidGap([f] + g) && GapText([f] + g) == FillerText(f) + GapText(g)
  {
    hide ValidFiller, FillerText;
    assert ([f] + g)[1..] == g;
  }

  /** What is skipped before something is a gap. */
  lemma {:induction false} GapFound(s: string) returns (g: Gap)
    requires SkipSpace(s).Ok? && SkipSpace(s).rest != []
    ensures ValidGap(g) && GapText(g) + SkipSpace(s).rest == s
    decreases |s|
  {
    hide ValidFiller, FillerText, SkipSpace, ValidGap, GapText, IsSpace;
    EmptyStart();
    SolidStart(s);
    if !IsSpace(s[0]) && s[0] != '/' {
      g := [];
      NoGap();
    } else {
      var f, t := FirstFiller(s);
      g := GapFound(t);
      GapCons(f, g);
      Regroup(FillerText(f), GapText(g), SkipSpace(t).rest);
      g := [f] + g;
    }
  }

  lemma NoGap()
    ensures ValidGap([]) && GapText([]) == []
  {
  }

  lemma FirstFiller(s: string) returns (f: Filler, t: string)
    requires s != [] && SkipSpace(s).Ok? && SkipSpace(s).rest != [] && (IsSpace(s[0]) || s[0] == '/')
    ensures ValidFiller(f) && FillerText(f) + t == s && SkipSpace(t) == SkipSpace(s) && |t| < |s|
  {
    if IsSpace(s[0]) {
      f, t := Blank(s[0]), s[1..];
    } else {
      f, t := FirstComment(s);
    }
  }

  lemma FirstComment(s: string) returns (f: Filler, t: string)
    requires s != [] && SkipSpace(s).Ok? && SkipSpace(s).rest != [] && s[0] == '/'
    ensures ValidFiller(f) && FillerText(f) + t == s && SkipSpace(t) == SkipSpace(s) && |t| < |s|
  {
    hide ValidFiller, SkipLine, SkipBlock;
    t := SkipComment(s).rest;
    if s[1] == '/' {
      EmptyStart();
      assert SkipLine(s[2..]) == t;
      var text, end := LineFound(s[2..]);
      f := Line(text, end);
      assert s == "//" + s[2..];
      assert "//" + (text + [end] + t) == "//" + text + [end] + t;
    } else {
      var text := BlockFound(s[2..]);
      f := Block(text);
      assert s == "/*" + s[2..];
      assert "/*" + (text + "*/" + t) == "/*" + text + "*/" + t;
    }
  }

  /** A gap in front of anything is skipped first. */
  lemma {:induction false} GapFirst(g: Gap, s: string)
    requires ValidGap(g)
    ensures SkipSpace(GapText(g) + s) == SkipSpace(s)
  {
    hide SkipSpace, ValidFiller, FillerText;
    if g == [] {
      assert GapText(g) + s == s;
    } else {
      GapFirst(g[1..], s);
      FillerSkipped(g[0], GapText(g[1..]) + s);
      assert GapText(g) + s == FillerText(g[0]) + (GapText(g[1..]) + s);
    }
  }

  /** A block comment that is not closed, or has another opening in it, is malformed. */
  lemma {:induction false} OpenBlock(text: string)
    requires forall i :: 0 <= i < |text| ==> !ClosesAt(text, i)
    ensures SkipBlock(text) == Err(Malformed)
  {
    if text != [] {
      assert !ClosesAt(text, 0);
      forall i | 0 <= i < |text[1..]| ensures !ClosesAt(text[1..], i) { assert !ClosesAt(text, i + 1); }
      OpenBlock(text[1..]);
    }
  }

  lemma {:induction false} NestedBlock(text: string, k: nat)
    requires OpensAt(text, k) && forall i :: 0 <= i < k ==> !ClosesAt(text, i)
    ensures SkipBlock(text) == Err(Malformed)
    decreases k
  {
    if k > 0 {
      assert !ClosesAt(text, 0);
      assert OpensAt(text[1..], k - 1);
      forall i | 0 <= i < k - 1 ensures !ClosesAt(text[1..], i) { assert !ClosesAt(text, i + 1); }
      NestedBlock(text[1..], k - 1);
    }
  }

  /** How comments fail. */
  lemma CommentFails(text: string, k: nat, c: char, rest: string)
    ensures SkipSpace("/") == Err(EndOfInput)
    ensures c != '/' && c != '*' ==> SkipSpace("/" + [c] + rest) == Err(Malformed)
    ensures (forall i :: 0 <= i < |text| ==> !ClosesAt(text, i)) ==> SkipSpace("/*" + text) == Err(Malformed)
    ensures OpensAt(text, k) && (forall i :: 0 <= i < k ==> !ClosesAt(text, i)) ==> SkipSpace("/*" + text) == Err(Malformed)
  {
    hide ClosesAt, OpensAt, SkipBlock;
    assert ("/*" + text)[0] == '/' && ("/*" + text)[1] == '*' && ("/*" + text)[2..] == text;
    if forall i :: 0 <= i < |text| ==> !ClosesAt(text, i) { OpenBlock(text); }
    if OpensAt(text, k) && (forall i :: 0 <= i < k ==> !ClosesAt(text, i)) { NestedBlock(text, k); }
  }

  // ---------------------------------------------------------------------------
  // Numbers

  /** A sign or blank, digits, and perhaps a dot and more digits. */
  datatype Numeral = Numeral(sign: string, whole: string, dot: bool, fraction: string)

  predicate AllDigits(s: string) { forall k :: 0 <= k < |s| ==> IsDigit(s[k]) }

  predicate ValidNumeral(n: Numeral) {
    && AllDigits(n.whole) && AllDigits(n.fraction) && |n.whole| + |n.fraction| > 0 && (n.fraction != [] ==> n.dot)
    && (n.sign == [] || (|n.sign| == 1 && (n.sign[0] == '-' || n.sign[0] == '+' || White(n.sign[0]))))
    && (n.sign == [] ==> n.whole != [])
  }

  function Body(n: Numeral): string { n.whole + (if n.dot then "." else "") + n.fraction }

  function NumeralText(n: Numeral): string { n.sign + Body(n) }

  function SignOf(n: Numeral): int { if n.sign == "-" then -1 else 1 }

  function NumeralInt(n: Numeral): int
    requires ValidNumeral(n)
  {
    SignOf(n) * Natural(n.whole)
  }

  /** The number written: its digits, over ten to the number of digits behind the dot. */
  function NumeralReal(n: Numeral): real
    requires ValidNumeral(n)
  {
    SignOf(n) as real * (Natural(n.whole + n.fraction) as real / Tens(|n.fraction|))
  }

  lemma {:induction false} WholePart(a: string, t: string)
    requires AllDigits(a) && Numeric(t)
    ensures Numeric(a + t) && Undotted(a + t) == a + Undotted(t)
    ensures Count(a + t, '.') == Count(t, '.')
    ensures '.' in t ==> Places(a + t) == Places(t)
  {
    if a == [] {
      assert a + t == t;
    } else {
      assert IsDigit(a[0]) && (a + t)[0] == a[0] && (a + t)[1..] == a[1..] + t;
      WholePart(a[1..], t);
      forall k | 0 <= k < |a + t| ensures NumberChar((a + t)[k]) {
        if k < |a| { assert IsDigit(a[k]); } else { assert NumberChar(t[k - |a|]); }
      }
      assert Undotted(a + t) == [a[0]] + Undotted(a[1..] + t);
      assert [a[0]] + (a[1..] + Undotted(t)) == a + Undotted(t);
    }
  }

  lemma {:induction false} NoDot(a: string)
    requires AllDigits(a)
    ensures Numeric(a) && Undotted(a) == a && Count(a, '.') == 0 && Places(a) == 0
  {
    if a != [] {
      assert IsDigit(a[0]);
      NoDot(a[1..]);
      assert a == [a[0]] + a[1..];
      forall k | 0 <= k < |a| ensures NumberChar(a[k]) { assert IsDigit(a[k]); }
    }
  }

  lemma DotAndDigits(b: string)
    requires AllDigits(b)
    ensures var t := "." + b; Numeric(t) && Undotted(t) == b && Count(t, '.') == 1 && Places(t) == |b| && '.' in t
  {
    var t := "." + b;
    NoDot(b);
    assert t[0] == '.' && t[1..] == b;
    forall k | 0 <= k < |t| ensures NumberChar(t[k]) { if k > 0 { assert IsDigit(b[k - 1]); } }
    assert [] + Undotted(b) == b;
  }

  lemma BodyParts(n: Numeral)
    requires ValidNumeral(n)
    ensures Numeric(Body(n)) && Undotted(Body(n)) == n.whole + n.fraction
    ensures Count(Body(n), '.') == (if n.dot then 1 else 0) && Places(Body(n)) == |n.fraction|
    ensures Body(n) != [] && (n.sign == [] ==> IsDigit(Body(n)[0]))
  {
    hide Undotted, Count, Places, Numeric;
    if n.dot {
      DotAndDigits(n.fraction);
      WholePart(n.whole, "." + n.fraction);
      assert Body(n) == n.whole + ("." + n.fraction);
    } else {
      NoDot(n.whole);
      assert Body(n) == n.whole && n.whole + n.fraction == n.whole;
    }
    if n.sign == [] { assert Body(n)[0] == n.whole[0]; }
  }

  lemma SignSplits(n: Numeral)
    requires ValidNumeral(n) && Body(n) != [] && (n.sign == [] ==> IsDigit(Body(n)[0]))
    ensures var t := NumeralText(n); t != [] && Unsigned(t) == Body(n) && (t[0] == '-' <==> n.sign == "-") && t[0] != '.'
    ensures var t := NumeralText(n); IsDigit(t[0]) <==> n.sign == []
  {
    hide Body;
    var t := NumeralText(n);
    if n.sign == [] { assert t == Body(n); } else { assert t[0] == n.sign[0] && t[1..] == Body(n); }
  }

  /** `float` of the text is the number written. */
  lemma NumeralDecimal(n: Numeral)
    requires ValidNumeral(n)
    ensures NumeralText(n) != [] && FloatText(NumeralText(n)) && Decimal(NumeralText(n)) == NumeralReal(n)
  {
    hide Undotted, Count, Places, Numeric, Body, NumeralText, Natural, Unsigned;
    BodyParts(n);
    SignSplits(n);
    UndottedLength(Body(n));
  }

  lemma {:induction false} UndottedLength(s: string)
    requires Numeric(s)
    ensures |Undotted(s)| + Count(s, '.') == |s|
  {
    if s != [] { UndottedLength(s[1..]); }
  }

  /** `int` of the text is the number written. */
  lemma NumeralInteger(n: Numeral)
    requires ValidNumeral(n) && !n.dot
    ensures var t := NumeralText(n);
            t != [] && (forall k :: 1 <= k < |t| ==> IsDigit(t[k])) && Integer(t) == Ok(Int(NumeralInt(n)), [])
  {
    var t := NumeralText(n);
    assert n.fraction == [] && Body(n) == n.whole;
    if n.sign == [] {
      assert t == n.whole && IsDigit(t[0]);
    } else {
      assert t[1..] == n.whole;
      forall k | 1 <= k < |t| ensures IsDigit(t[k]) { assert IsDigit(n.whole[k - 1]); }
    }
  }

  /** How many characters of a number come next. */
  function RunLength(s: string): (k: nat)
    ensures k <= |s| && (forall i :: 0 <= i < k ==> NumberChar(s[i])) && (k < |s| ==> !NumberChar(s[k]))
  {
    if s != [] && NumberChar(s[0]) then 1 + RunLength(s[1..]) else 0
  }

  /** The rest does not go on with a number. */
  predicate EndsNumber(s: string) { s == [] || !(NumberChar(s[0]) || s[0] == 'e') }

  predicate NoRun(s: string) { s == [] || !NumberChar(s[0]) }

  lemma RunIs(t: string, rest: string)
    requires Numeric(t) && NoRun(rest)
    ensures RunLength(t + rest) == |t| && (t + rest)[..|t|] == t && (t + rest)[|t|..] == rest
  {
    var s := t + rest;
    assert forall i :: 0 <= i < |t| ==> s[i] == t[i] && NumberChar(t[i]);
    assert rest != [] ==> s[|t|] == rest[0];
  }

  /** What the loop of `_readNumber` returns, with the whole run of characters collected. */
  function AfterRun(text: string, float: bool, t: string, allowExp: bool): Parse<Value>
    requires text != [] && (float || forall k :: 1 <= k < |text| ==> IsDigit(text[k]))
  {
    if allowExp && t != [] && t[0] == 'e' then
      var x := ReadNumber(t[1..], false);
      if x.Err? then x else Number(text, true, x.value, x.rest)
    else Number(text, float, Int(0), t)
  }

  lemma {:induction false} DigitsRun(s: string, allowExp: bool, text: string, float: bool)
    requires text != [] && (float || forall k :: 1 <= k < |text| ==> IsDigit(text[k]))
    ensures var k := RunLength(s);
            var float' := float || '.' in s[..k];
            && (float' || forall i :: 1 <= i < |text + s[..k]| ==> IsDigit((text + s[..k])[i]))
            && ReadDigits(s, allowExp, text, float) == AfterRun(text + s[..k], float', s[k..], allowExp)
    decreases |s|
  {
    hide Number, ReadNumber;
    var k := RunLength(s);
    if k == 0 {
      assert text + s[..k] == text && s[k..] == s;
    } else {
      var c := s[0];
      assert NumberChar(c);
      DigitsRun(s[1..], allowExp, text + [c], float || c == '.');
      var j := RunLength(s[1..]);
      assert k == j + 1;
      assert s[..k] == [c] + s[1..][..j];
      assert s[k..] == s[1..][j..];
      assert text + [c] + s[1..][..j] == text + s[..k];
    }
  }

  /** The value of a numeral read on its own. */
  function NumeralValue(n: Numeral): (v: Value)
    requires ValidNumeral(n)
    ensures v.Int? || v.Float?
  {
    if n.dot then Float(NumeralReal(n)) else Int(NumeralInt(n))
  }

  /** A numeral without its first character. */
  lemma TailText(n: Numeral)
    requires ValidNumeral(n)
    ensures var t := NumeralText(n); t != [] && t[1..] == if n.sign == [] then Body(n)[1..] else Body(n)
    ensures Body(n) != [] && (n.sign == [] ==> Body(n)[1..] == n.whole[1..] + (if n.dot then "." else "") + n.fraction)
  {
    var t, b := NumeralText(n), Body(n);
    if n.sign == [] { assert t == b; } else { assert t[1..] == b; }
  }

  lemma DotIn(a: string, dot: bool, b: string)
    requires AllDigits(a) && AllDigits(b) && (b != [] ==> dot)
    ensures var t := a + (if dot then "." else "") + b; Numeric(t) && ('.' in t <==> dot)
  {
    var t := a + (if dot then "." else "") + b;
    if dot {
      assert t[|a|] == '.';
      forall k | 0 <= k < |t| ensures NumberChar(t[k]) {
        if k < |a| { assert IsDigit(a[k]); } else if k > |a| { assert IsDigit(b[k - |a| - 1]); }
      }
    } else {
      assert t == a;
      forall k | 0 <= k < |t| ensures IsDigit(t[k]) { assert IsDigit(a[k]); }
    }
  }

  lemma TailOfNumeral(n: Numeral)
    requires ValidNumeral(n)
    ensures var t := NumeralText(n); t != [] && Numeric(t[1..]) && ('.' in t[1..] <==> n.dot) && [t[0]] + t[1..] == t
  {
    hide NumeralText, Numeric;
    TailText(n);
    var a := if n.sign == [] then n.whole[1..] else n.whole;
    assert AllDigits(a);
    DotIn(a, n.dot, n.fraction);
  }

  /** The number read from the text of a numeral. */
  lemma NumeralNumber(n: Numeral, exponent: Value, rest: string)
    requires ValidNumeral(n) && (exponent.Int? || exponent.Float?)
    ensures var t := NumeralText(n);
            && t != [] && (!n.dot ==> forall k :: 1 <= k < |t| ==> IsDigit(t[k]))
            && Number(t, true, exponent, rest) == Ok(Raised(NumeralReal(n), exponent), rest)
            && (n.dot ==> Number(t, true, Int(0), rest) == Ok(NumeralValue(n), rest))
            && (!n.dot ==> Number(t, false, Int(0), rest) == Ok(NumeralValue(n), rest))
  {
    hide NumeralText, FloatText, Decimal, Integer, NumeralReal, NumeralInt;
    NumeralDecimal(n);
    if !n.dot { NumeralInteger(n); }
    assert Shifted(NumeralReal(n), 0) == NumeralReal(n);
  }

  lemma NumeralRun(n: Numeral, rest: string, allowExp: bool)
    requires ValidNumeral(n) && NoRun(rest)
    ensures NumeralText(n) != [] && (n.dot || forall k :: 1 <= k < |NumeralText(n)| ==> IsDigit(NumeralText(n)[k]))
    ensures ReadNumber(NumeralText(n) + rest, allowExp) == AfterRun(NumeralText(n), n.dot, rest, allowExp)
  {
    hide NumeralText, AfterRun, ReadDigits, RunLength, Body, Number, Numeric, NumeralValue, ValidNumeral, Raised;
    TailOfNumeral(n);
    NumeralNumber(n, Int(0), rest);
    var t := NumeralText(n);
    var s := t + rest;
    assert s[0] == t[0] && s[1..] == t[1..] + rest;
    RunIs(t[1..], rest);
    DigitsRun(s[1..], allowExp, [t[0]], false);
    assert [t[0]] + t[1..] == t;
  }

  lemma NumeralRead(n: Numeral, rest: string)
    requires ValidNumeral(n) && NoRun(rest)
    ensures ReadNumber(NumeralText(n) + rest, false) == Ok(NumeralValue(n), rest)
  {
    hide NumeralText, ReadNumber, Number, NumeralValue;
    NumeralRun(n, rest, false);
    NumeralNumber(n, Int(0), rest);
  }

  datatype Exponent = NoExponent | Exponent(n: Numeral)

  datatype Num = Num(mantissa: Numeral, exponent: Exponent)

  predicate ValidNum(n: Num) {
    && ValidNumeral(n.mantissa) && (n.mantissa.sign == [] || n.mantissa.sign == "-")
    && (n.exponent.Exponent? ==> ValidNumeral(n.exponent.n))
  }

  function NumText(n: Num): string {
    NumeralText(n.mantissa) + if n.exponent.Exponent? then "e" + NumeralText(n.exponent.n) else ""
  }

  /** An integer, a real, a real times a power of ten, or a real times ten to a real power. */
  function NumValue(n: Num): Value
    requires ValidNum(n)
  {
    match n.exponent
    case NoExponent => NumeralValue(n.mantissa)
    case Exponent(e) => if e.dot then Power(NumeralReal(n.mantissa), NumeralReal(e)) else Float(Shifted(NumeralReal(n.mantissa), NumeralInt(e)))
  }

  /** The rest does not go on with this number; a number with an exponent has no other. */
  predicate Stops(n: Num, rest: string) { NoRun(rest) && (n.exponent.NoExponent? ==> EndsNumber(rest)) }

  lemma NumRead(n: Num, rest: string)
    requires ValidNum(n) && Stops(n, rest)
    ensures ReadNumber(NumText(n) + rest, true) == Ok(NumValue(n), rest)
  {
    hide NumeralText, ReadNumber, Number, NumeralReal, NumeralInt, ValidNumeral;
    var m := n.mantissa;
    match n.exponent
    case NoExponent =>
      assert NumText(n) + rest == NumeralText(m) + rest;
      NumeralRun(m, rest, true);
      NumeralNumber(m, Int(0), rest);
    case Exponent(e) =>
      var t := "e" + NumeralText(e) + rest;
      assert NumText(n) + rest == NumeralText(m) + t;
      assert t[0] == 'e' && t[1..] == NumeralText(e) + rest;
      NumeralRun(m, t, true);
      NumeralRead(e, rest);
      NumeralNumber(m, NumeralValue(e), rest);
      assert AfterRun(NumeralText(m), m.dot, t, true) == Ok(Raised(NumeralReal(m), NumeralValue(e)), rest);
      assert Raised(NumeralReal(m), NumeralValue(e)) == NumValue(n);
  }

  // The other way: what was read as a number is one of these.

  lemma {:induction false} CountConcat(a: string, b: string, c: char)
    ensures Count(a + b, c) == Count(a, c) + Count(b, c)
  {
    if a == [] {
      assert a + b == b;
    } else {
      CountConcat(a[1..], b, c);
      assert (a + b)[0] == a[0] && (a + b)[1..] == a[1..] + b;
    }
  }

  lemma {:induction false} CountNone(s: string, c: char)
    ensures Count(s, c) == 0 <==> c !in s
  {
    if s != [] {
      CountNone(s[1..], c);
      assert s == [s[0]] + s[1..];
    }
  }

  lemma OnlyDigits(s: string)
    requires Numeric(s) && '.' !in s
    ensures AllDigits(s)
  {
    forall k | 0 <= k < |s| ensures IsDigit(s[k]) { assert NumberChar(s[k]) && s[k] in s; }
  }

  /** A text of digits with one dot at most is taken apart at the dot. */
  lemma BodyFound(t: string) returns (whole: string, dot: bool, fraction: string)
    requires Numeric(t) && Count(t, '.') <= 1 && Count(t, '.') < |t|
    ensures AllDigits(whole) && AllDigits(fraction) && |whole| + |fraction| > 0 && (fraction != [] ==> dot)
    ensures t == whole + (if dot then "." else "") + fraction && (dot <==> '.' in t)
  {
    hide Count, Numeric;
    CountNone(t, '.');
    if '.' in t {
      var i :| 0 <= i < |t| && t[i] == '.';
      whole, dot, fraction := t[..i], true, t[i + 1..];
      assert t == whole + "." + fraction;
      CountConcat(whole + ".", fraction, '.');
      CountConcat(whole, ".", '.');
      OneDot();
      CountNone(whole, '.');
      CountNone(fraction, '.');
      NumericParts(t, i);
      OnlyDigits(whole);
      OnlyDigits(fraction);
    } else {
      whole, dot, fraction := t, false, [];
      OnlyDigits(t);
      assert t == t + "" + [];
    }
  }

  lemma OneDot()
    ensures Count(".", '.') == 1
  {
    assert "."[1..] == [];
  }

  lemma NumericParts(t: string, i: nat)
    requires Numeric(t) && i < |t|
    ensures Numeric(t[..i]) && Numeric(t[i + 1..])
  {
  }

  /** `float` accepts only numerals. */
  lemma FloatFound(text: string) returns (n: Numeral)
    requires text != [] && text[0] != '.' && FloatText(text)
    ensures ValidNumeral(n) && NumeralText(n) == text && (n.dot <==> '.' in text)
    ensures text[0] == '-' ==> n.sign == "-"
    ensures IsDigit(text[0]) ==> n.sign == []
  {
    hide Numeric, Count;
    var t := Unsigned(text);
    var whole, dot, fraction := BodyFound(t);
    var sign := if t == text then "" else [text[0]];
    n := Numeral(sign, whole, dot, fraction);
    assert text == [text[0]] + text[1..];
    assert whole == [] ==> dot && t[0] == '.';
  }

  /** So does `int`. */
  lemma IntFound(text: string) returns (n: Numeral)
    requires text != [] && (forall k :: 1 <= k < |text| ==> IsDigit(text[k])) && Integer(text).Ok?
    ensures ValidNumeral(n) && NumeralText(n) == text && !n.dot && Integer(text).value == Int(NumeralInt(n))
    ensures text[0] == '-' ==> n.sign == "-"
    ensures IsDigit(text[0]) ==> n.sign == []
  {
    if IsDigit(text[0]) {
      n := Numeral("", text, false, "");
      assert NumeralText(n) == text;
    } else {
      n := Numeral([text[0]], text[1..], false, "");
      assert text == [text[0]] + text[1..];
    }
  }

  /** A number without an exponent. */
  lemma PlainFound(text: string, float: bool, rest: string) returns (n: Numeral)
    requires text != [] && (float || forall k :: 1 <= k < |text| ==> IsDigit(text[k])) && (float ==> '.' in text[1..])
    requires Number(text, float, Int(0), rest).Ok?
    ensures ValidNumeral(n) && NumeralText(n) == text && Number(text, float, Int(0), rest) == Ok(NumeralValue(n), rest)
    ensures text[0] == '-' ==> n.sign == "-"
    ensures IsDigit(text[0]) ==> n.sign == []
  {
    hide FloatText, Integer, NumeralText, Decimal, NumeralReal, NumeralInt;
    if float {
      NotFirst(text);
      n := FloatFound(text);
      DotBehind(text);
    } else {
      n := IntFound(text);
    }
    NumeralNumber(n, Int(0), rest);
  }

  lemma DotBehind(text: string)
    requires text != [] && '.' in text[1..]
    ensures '.' in text
  {
  }

  lemma NotFirst(text: string)
    requires text != [] && '.' in text[1..] && FloatText(text)
    ensures text[0] != '.'
  {
    if text[0] == '.' {
      assert text == [text[0]] + text[1..];
      CountNone(text[1..], '.');
    }
  }

  /** The run of characters that was collected. */
  lemma RunFound(s: string, allowExp: bool) returns (text: string, t: string)
    requires s != []
    ensures text != [] && text[0] == s[0] && text + t == s && |t| < |s| && NoRun(t)
    ensures var float := '.' in text[1..];
            (float || forall k :: 1 <= k < |text| ==> IsDigit(text[k])) && ReadNumber(s, allowExp) == AfterRun(text, float, t, allowExp)
  {
    hide ReadDigits, AfterRun;
    var k := RunLength(s[1..]);
    DigitsRun(s[1..], allowExp, [s[0]], false);
    text, t := [s[0]] + s[1..][..k], s[1..][k..];
    assert text[1..] == s[1..][..k];
    assert s == [s[0]] + s[1..];
  }

  lemma NumeralFound(s: string) returns (n: Numeral)
    requires ReadNumber(s, false).Ok?
    ensures ValidNumeral(n) && NumeralText(n) + ReadNumber(s, false).rest == s && ReadNumber(s, false).value == NumeralValue(n)
    ensures NoRun(ReadNumber(s, false).rest)
  {
    hide ReadDigits, Number, NumeralText, NumeralValue, ValidNumeral;
    var text, t := RunFound(s, false);
    NumberRest(text, '.' in text[1..], Int(0), t);
    n := PlainFound(text, '.' in text[1..], t);
  }

  lemma NumberRest(text: string, float: bool, exponent: Value, rest: string)
    requires text != [] && (float || forall k :: 1 <= k < |text| ==> IsDigit(text[k])) && (exponent.Int? || exponent.Float?)
    ensures Number(text, float, exponent, rest).Ok? ==> Number(text, float, exponent, rest).rest == rest
    ensures float && Number(text, float, exponent, rest).Ok? ==>
              FloatText(text) && Number(text, float, exponent, rest).value == Raised(Decimal(text), exponent)
  {
    hide FloatText, Decimal, Raised;
  }

  /** What is read as a number is the text of one. */
  lemma NumFound(s: string) returns (n: Num)
    requires s != [] && (s[0] == '-' || IsDigit(s[0])) && ReadNumber(s, true).Ok?
    ensures ValidNum(n) && NumText(n) + ReadNumber(s, true).rest == s && ReadNumber(s, true).value == NumValue(n)
    ensures Stops(n, ReadNumber(s, true).rest)
  {
    hide ReadNumber, Number, NumeralText, ValidNumeral, NumeralReal, NumeralInt, FloatText, Decimal;
    var text, t := RunFound(s, true);
    if t != [] && t[0] == 'e' {
      n := ExponentFound(s, text, t);
    } else {
      NumberRest(text, '.' in text[1..], Int(0), t);
      var m := PlainFound(text, '.' in text[1..], t);
      n := Num(m, NoExponent);
      assert NumText(n) + t == NumeralText(m) + t;
    }
  }

  lemma ExponentFound(s: string, text: string, t: string) returns (n: Num)
    requires s != [] && (s[0] == '-' || IsDigit(s[0])) && text != [] && text[0] == s[0] && text + t == s && t != [] && t[0] == 'e'
    requires var float := '.' in text[1..];
             (float || forall k :: 1 <= k < |text| ==> IsDigit(text[k])) && ReadNumber(s, true) == AfterRun(text, float, t, true)
    requires ReadNumber(s, true).Ok?
    ensures ValidNum(n) && NumText(n) + ReadNumber(s, true).rest == s && ReadNumber(s, true).value == NumValue(n)
    ensures Stops(n, ReadNumber(s, true).rest)
  {
    hide ReadNumber, Number, NumeralText, ValidNumeral, NumeralReal, NumeralInt, FloatText, Decimal, NumeralValue;
    var e := NumeralFound(t[1..]);
    var rest := ReadNumber(t[1..], false).rest;
    NumberRest(text, true, NumeralValue(e), rest);
    var m := FloatFound(text);
    NumeralDecimal(m);
    n := Num(m, Exponent(e));
    RaisedIs(m, e);
    assert t == "e" + (NumeralText(e) + rest);
    assert NumText(n) + rest == text + ("e" + (NumeralText(e) + rest));
  }

  lemma RaisedIs(m: Numeral, e: Numeral)
    requires ValidNumeral(m) && ValidNumeral(e)
    ensures Raised(NumeralReal(m), NumeralValue(e)) ==
              if e.dot then Power(NumeralReal(m), NumeralReal(e)) else Float(Shifted(NumeralReal(m), NumeralInt(e)))
  {
    hide NumeralReal, NumeralInt;
  }

  // ---------------------------------------------------------------------------
  // Strings

  /** A character of a string: as it is, by a short escape, or by its hexadecimal number. */
  datatype Piece = Itself(c: char) | Short(letter: char) | Hex(a: char, b: char, c: char, d: char)

  /** What a short escape stands for. */
  function ShortValue(letter: char): char {
    match letter
    case 'b' => Backspace
    case 'r' => '\r'
    case 'n' => '\n'
    case 'f' => FormFeed
    case 't' => '\t'
    case c => c
  }

  predicate IsHex(c: char) { IsDigit(c) || 'A' <= c <= 'F' || 'a' <= c <= 'f' }

  /** The value of a hexadecimal digit. */
  function HexValue(c: char): nat
    requires IsHex(c)
  {
    if c <= '9' then (c - '0') as nat else if c <= 'F' then (c - 'A') as nat + 10 else (c - 'a') as nat + 10
  }

  function HexNumber(p: Piece): nat
    requires p.Hex? && IsHex(p.a) && IsHex(p.b) && IsHex(p.c) && IsHex(p.d)
  {
    ((HexValue(p.a) * 16 + HexValue(p.b)) * 16 + HexValue(p.c)) * 16 + HexValue(p.d)
  }

  predicate ValidPiece(p: Piece) {
    match p
    case Itself(c) => c != '"' && c != '\\'
    case Short(l) => l == 'b' || l == 'r' || l == 'n' || l == 'f' || l == 't' || l == '"' || l == '/' || l == '\\'
    case Hex(a, b, c, d) => IsHex(a) && IsHex(b) && IsHex(c) && IsHex(d) && HexNumber(p) < 128
  }

  function PieceText(p: Piece): string {
    match p
    case Itself(c) => [c]
    case Short(l) => ['\\', l]
    case Hex(a, b, c, d) => ['\\', 'u', a, b, c, d]
  }

  function PieceValue(p: Piece): char
    requires ValidPiece(p)
  {
    match p
    case Itself(c) => c
    case Short(l) => ShortValue(l)
    case Hex(_, _, _, _) => HexNumber(p) as char
  }

  predicate ValidPieces(s: seq<Piece>) { forall i :: 0 <= i < |s| ==> ValidPiece(s[i]) }

  function PiecesText(s: seq<Piece>): string { if s == [] then [] else PieceText(s[0]) + PiecesText(s[1..]) }

  function PiecesValue(s: seq<Piece>): string
    requires ValidPieces(s)
  {
    if s == [] then [] else [PieceValue(s[0])] + PiecesValue(s[1..])
  }

  /** An escape in front of the rest of a string. */
  lemma EscapeRead(e: string, c: char, s: string, text: string)
    requires ReadEscape(e + s) == Ok(c, s)
    ensures ReadChars(['\\'] + e + s, text) == ReadChars(s, text + [c])
  {
    hide ReadEscape;
    var all := ['\\'] + e + s;
    assert all[0] == '\\' && all[1..] == e + s;
  }

  lemma ShortRead(l: char, s: string)
    requires ValidPiece(Short(l))
    ensures ReadEscape([l] + s) == Ok(ShortValue(l), s)
  {
    assert ([l] + s)[1..] == s;
  }

  lemma HexEscapeRead(p: Piece, s: string)
    requires p.Hex? && ValidPiece(p)
    ensures ReadEscape(['u', p.a, p.b, p.c, p.d] + s) == Ok(PieceValue(p), s)
  {
    hide ReadHex;
    HexRead(p, s);
    var t := ['u', p.a, p.b, p.c, p.d] + s;
    assert t[0] == 'u' && t[1..] == [p.a, p.b, p.c, p.d] + s;
  }

  lemma PieceRead(p: Piece, s: string, text: string)
    requires ValidPiece(p)
    ensures ReadChars(PieceText(p) + s, text) == ReadChars(s, text + [PieceValue(p)])
  {
    hide ReadEscape, HexNumber;
    match p
    case Itself(c) =>
      assert ([c] + s)[0] == c && ([c] + s)[1..] == s;
    case Short(l) =>
      ShortRead(l, s);
      EscapeRead([l], ShortValue(l), s, text);
      assert ['\\', l] == ['\\'] + [l];
    case Hex(a, b, c, d) =>
      HexEscapeRead(p, s);
      EscapeRead(['u', a, b, c, d], PieceValue(p), s, text);
      assert ['\\', 'u', a, b, c, d] == ['\\'] + ['u', a, b, c, d];
  }

  lemma HexRead(p: Piece, s: string)
    requires p.Hex? && ValidPiece(p)
    ensures ReadHex([p.a, p.b, p.c, p.d] + s) == Ok(PieceValue(p), s)
  {
    var t := [p.a, p.b, p.c, p.d] + s;
    assert t[4..] == s;
  }

  lemma {:induction false} PiecesRead(p: seq<Piece>, rest: string, text: string)
    requires ValidPieces(p)
    ensures ReadChars(PiecesText(p) + "\"" + rest, text) == Ok(text + PiecesValue(p), rest)
  {
    hide ReadChars, PieceText, PieceValue, ValidPiece;
    if p == [] {
      ReadQuote(rest, text);
      assert PiecesText(p) + "\"" + rest == "\"" + rest && text + PiecesValue(p) == text;
    } else {
      var more := PiecesText(p[1..]) + "\"" + rest;
      PieceRead(p[0], more, text);
      PiecesRead(p[1..], rest, text + [PieceValue(p[0])]);
      assert PiecesText(p) + "\"" + rest == PieceText(p[0]) + more;
      assert text + [PieceValue(p[0])] + PiecesValue(p[1..]) == text + PiecesValue(p);
    }
  }

  /** The next character of a string that is read to its end. */
  lemma PieceFound(s: string, text: string) returns (p: Piece, t: string)
    requires ReadChars(s, text).Ok? && s[0] != '"'
    ensures ValidPiece(p) && PieceText(p) + t == s && |t| < |s| && ReadChars(s, text) == ReadChars(t, text + [PieceValue(p)])
  {
    hide ReadEscape;
    assert s == [s[0]] + s[1..];
    if s[0] != '\\' {
      p, t := Itself(s[0]), s[1..];
    } else {
      p, t := EscapeFound(s[1..]);
    }
  }

  lemma EscapeFound(e: string) returns (p: Piece, t: string)
    requires ReadEscape(e).Ok?
    ensures ValidPiece(p) && PieceText(p) + t == ['\\'] + e && |t| < |e| && ReadEscape(e) == Ok(PieceValue(p), t)
  {
    hide ReadHex;
    if e[0] == 'u' {
      p, t := HexEscapeFound(e[1..]);
      assert e == ['u'] + e[1..];
    } else {
      p, t := Short(e[0]), e[1..];
      assert e == [e[0]] + e[1..];
    }
  }

  lemma HexEscapeFound(s: string) returns (p: Piece, t: string)
    requires ReadHex(s).Ok?
    ensures ValidPiece(p) && PieceText(p) + t == ['\\', 'u'] + s && |t| < |s| && ReadHex(s) == Ok(PieceValue(p), t)
  {
    p, t := Hex(s[0], s[1], s[2], s[3]), s[4..];
    HexFound(p, s);
    assert s == [s[0], s[1], s[2], s[3]] + s[4..];
  }

  lemma HexFound(p: Piece, s: string)
    requires p.Hex? && |s| >= 4 && p == Hex(s[0], s[1], s[2], s[3]) && ReadHex(s).Ok?
    ensures ValidPiece(p) && ReadHex(s).value == PieceValue(p)
  {
  }

  lemma {:induction false} PiecesFound(s: string, text: string) returns (p: seq<Piece>)
    requires ReadChars(s, text).Ok?
    ensures ValidPieces(p) && PiecesText(p) + "\"" + ReadChars(s, text).rest == s && ReadChars(s, text).value == text + PiecesValue(p)
    decreases |s|
  {
    hide PieceText, PieceValue, ValidPiece, ReadEscape;
    if s[0] == '"' {
      p := [];
      assert s == "\"" + s[1..];
      assert text + PiecesValue(p) == text;
    } else {
      var q, t := PieceFound(s, text);
      var more := PiecesFound(t, text + [PieceValue(q)]);
      p := [q] + more;
      PiecesCons(q, more);
      var rest := ReadChars(t, text + [PieceValue(q)]).rest;
      assert PieceText(q) + (PiecesText(more) + "\"" + rest) == PieceText(q) + PiecesText(more) + "\"" + rest;
      assert text + [PieceValue(q)] + PiecesValue(more) == text + ([PieceValue(q)] + PiecesValue(more));
    }
  }

  lemma PiecesCons(q: Piece, p: seq<Piece>)
    requires ValidPiece(q) && ValidPieces(p)
    ensures ValidPieces([q] + p) && PiecesText([q] + p) == PieceText(q) + PiecesText(p) && PiecesValue([q] + p) == [PieceValue(q)] + PiecesValue(p)
  {
    hide PieceText, PieceValue, ValidPiece;
    assert ([q] + p)[1..] == p;
  }

  /** A string that is not closed is malformed. */
  lemma {:induction false} OpenString(p: seq<Piece>, text: string)
    requires ValidPieces(p)
    ensures ReadChars(PiecesText(p), text) == Err(Malformed)
  {
    hide ReadChars, PieceText, PieceValue, ValidPiece;
    if p == [] {
      NoChars(text);
    } else {
      PieceRead(p[0], PiecesText(p[1..]), text);
      OpenString(p[1..], text + [PieceValue(p[0])]);
    }
  }

  lemma NoChars(text: string)
    ensures ReadChars([], text) == Err(Malformed)
  {
  }

  /** A hexadecimal escape of 128 or more cannot be stored. */
  lemma WideEscape(h: Piece, rest: string, text: string)
    requires h.Hex? && IsHex(h.a) && IsHex(h.b) && IsHex(h.c) && IsHex(h.d) && HexNumber(h) >= 128
    ensures ReadChars(PieceText(h) + rest, text) == Err(NotAscii)
  {
    var all := PieceText(h) + rest;
    assert all[0] == '\\' && all[1..] == ['u', h.a, h.b, h.c, h.d] + rest;
    assert all[1..][1..] == [h.a, h.b, h.c, h.d] + rest;
    WideHex(h, rest);
  }

  lemma WideHex(h: Piece, rest: string)
    requires h.Hex? && IsHex(h.a) && IsHex(h.b) && IsHex(h.c) && IsHex(h.d) && HexNumber(h) >= 128
    ensures ReadHex([h.a, h.b, h.c, h.d] + rest) == Err(NotAscii)
  {
  }

  /** Any string with such an escape in it is refused. */
  lemma {:induction false} WideString(p: seq<Piece>, h: Piece, rest: string, text: string)
    requires ValidPieces(p) && h.Hex? && IsHex(h.a) && IsHex(h.b) && IsHex(h.c) && IsHex(h.d) && HexNumber(h) >= 128
    ensures ReadChars(PiecesText(p) + (PieceText(h) + rest), text) == Err(NotAscii)
  {
    hide ReadChars, PieceText, PieceValue, ValidPiece, HexNumber, IsHex;
    if p == [] {
      WideEscape(h, rest, text);
      assert PiecesText(p) + (PieceText(h) + rest) == PieceText(h) + rest;
    } else {
      var more := PiecesText(p[1..]) + (PieceText(h) + rest);
      PieceRead(p[0], more, text);
      WideString(p[1..], h, rest, text + [PieceValue(p[0])]);
      assert PiecesText(p) + (PieceText(h) + rest) == PieceText(p[0]) + more;
    }
  }
}
