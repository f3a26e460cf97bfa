/**
 The JSON reader and writer of tools/localjson.py as functions on strings, and
 the proof that the reader undoes the writer.
 */
module Json {

  /**
   What the writer accepts and the reader returns. A dictionary is the list of its
   items in the order of `items()`. Floating point numbers are the reals they stand
   for; `Power` is the mantissa times ten to a power that was written with a dot.
   */
  datatype Value =
    | Null
    | Bool(b: bool)
    | Int(i: int)
    | Float(x: real)
    | Power(mantissa: real, power: real)
    | Str(s: string)
    | List(items: seq<Value>)
    | Dict(entries: seq<Entry>)

  datatype Entry = Entry(key: Value, value: Value)

  /** `ReadException`, an uncaught `StopIteration`, and the failure to store a non-ASCII `\u` escape in a byte string. */
  datatype Error = Malformed | EndOfInput | NotAscii

  /** A parsed value with the input that is left, or an error. */
  datatype Parse<T> = Ok(value: T, rest: string) | Err(error: Error)

  const Backspace := '\U{0008}'
  const FormFeed := '\U{000C}'
  const VerticalTab := '\U{000B}'

  // ---------------------------------------------------------------------------
  // Writing

  /** `str.replace` of one character. */
  function Replace(s: string, old': char, new': string): string {
    if s == [] then [] else ReplaceChar(s[0], old', new') + Replace(s[1..], old', new')
  }

  function ReplaceChar(c: char, old': char, new': string): string { if c == old' then new' else [c] }

  /** The replacements the writer makes, one after the other. */
  function Escaped(s: string, slash: bool): string {
    var s1 := Replace(s, '\\', "\\\\");
    var s2 := if slash then Replace(s1, '/', "\\/") else s1;
    var s3 := Replace(s2, '"', "\\\"");
    var s4 := Replace(s3, Backspace, "\\b");
    var s5 := Replace(s4, FormFeed, "\\f");
    var s6 := Replace(s5, '\n', "\\n");
    var s7 := Replace(s6, '\r', "\\r");
    Replace(s7, '\t', "\\t")
  }

  /** What a single character is written as. */
  function EscapedChar(c: char, slash: bool): string {
    if c == '\\' then "\\\\"
    else if c == '/' && slash then "\\/"
    else if c == '"' then "\\\""
    else if c == Backspace then "\\b"
    else if c == FormFeed then "\\f"
    else if c == '\n' then "\\n"
    else if c == '\r' then "\\r"
    else if c == '\t' then "\\t"
    else [c]
  }

  function EscapedEach(s: string, slash: bool): string {
    if s == [] then [] else EscapedChar(s[0], slash) + EscapedEach(s[1..], slash)
  }

  lemma Regroup(a: string, b: string, c: string)
    ensures (a + b) + c == a + (b + c)
  {
  }

  lemma ReplaceFirst(c: char, s: string, old': char, new': string)
    ensures Replace([c] + s, old', new') == ReplaceChar(c, old', new') + Replace(s, old', new')
  {
    assert ([c] + s)[1..] == s;
  }

  lemma {:induction false} ReplaceConcat(a: string, b: string, old': char, new': string)
    ensures Replace(a + b, old', new') == Replace(a, old', new') + Replace(b, old', new')
  {
    if a == [] {
      assert a + b == b;
    } else {
      assert a == [a[0]] + a[1..];
      ReplaceConcat(a[1..], b, old', new');
      ReplaceFirst(a[0], a[1..], old', new');
      ReplaceFirst(a[0], a[1..] + b, old', new');
      Regroup([a[0]], a[1..], b);
      Regroup(ReplaceChar(a[0], old', new'), Replace(a[1..], old', new'), Replace(b, old', new'));
      hide Replace, ReplaceChar;
    }
  }

  lemma EscapedConcat(a: string, b: string, slash: bool)
    ensures Escaped(a + b, slash) == Escaped(a, slash) + Escaped(b, slash)
  {
    hide Replace;
    ReplaceConcat(a, b, '\\', "\\\\");
    var a1, b1 := Replace(a, '\\', "\\\\"), Replace(b, '\\', "\\\\");
    ReplaceConcat(a1, b1, '/', "\\/");
    var a2 := if slash then Replace(a1, '/', "\\/") else a1;
    var b2 := if slash then Replace(b1, '/', "\\/") else b1;
    ReplaceConcat(a2, b2, '"', "\\\"");
    var a3, b3 := Replace(a2, '"', "\\\""), Replace(b2, '"', "\\\"");
    ReplaceConcat(a3, b3, Backspace, "\\b");
    var a4, b4 := Replace(a3, Backspace, "\\b"), Replace(b3, Backspace, "\\b");
    ReplaceConcat(a4, b4, FormFeed, "\\f");
    var a5, b5 := Replace(a4, FormFeed, "\\f"), Replace(b4, FormFeed, "\\f");
    ReplaceConcat(a5, b5, '\n', "\\n");
    var a6, b6 := Replace(a5, '\n', "\\n"), Replace(b5, '\n', "\\n");
    ReplaceConcat(a6, b6, '\r', "\\r");
    ReplaceConcat(Replace(a6, '\r', "\\r"), Replace(b6, '\r', "\\r"), '\t', "\\t");
  }

  /** One replacement, before (`[c]`) or after (`e`) the character `c` was escaped. */
  lemma Stage(c: char, done: bool, e: string, old': char, new': string)
    requires done ==> |e| == 2 && e[0] != old' && e[1] != old'
    ensures Replace(if done then e else [c], old', new') == if done then e else if c == old' then new' else [c]
  {
    if done {
      assert e[1..] == [e[1]];
      assert Replace([e[1]], old', new') == [e[1]];
      assert e == [e[0]] + [e[1]];
    }
  }

  lemma EscapedOne(c: char, slash: bool)
    ensures Escaped([c], slash) == EscapedChar(c, slash)
  {
    hide Replace;
    var e := EscapedChar(c, slash);
    Stage(c, false, e, '\\', "\\\\");
    Stage(c, c == '\\', e, '/', "\\/");
    var d2 := c == '\\' || (slash && c == '/');
    Stage(c, d2, e, '"', "\\\"");
    var d3 := d2 || c == '"';
    Stage(c, d3, e, Backspace, "\\b");
    var d4 := d3 || c == Backspace;
    Stage(c, d4, e, FormFeed, "\\f");
    var d5 := d4 || c == FormFeed;
    Stage(c, d5, e, '\n', "\\n");
    var d6 := d5 || c == '\n';
    Stage(c, d6, e, '\r', "\\r");
    Stage(c, d6 || c == '\r', e, '\t', "\\t");
  }

  /** The chain of replacements escapes each character on its own. */
  lemma {:induction false} EscapedIsEach(s: string, slash: bool)
    ensures Escaped(s, slash) == EscapedEach(s, slash)
  {
    if s != [] {
      EscapedConcat([s[0]], s[1..], slash);
      assert s == [s[0]] + s[1..];
      EscapedOne(s[0], slash);
      EscapedIsEach(s[1..], slash);
    }
  }

  function Digit(d: nat): char
    requires d < 10
  {
    '0' + d as char
  }

  /** `str` of a non-negative integer. */
  function Digits(n: nat): (s: string)
    ensures s != [] && forall k :: 0 <= k < |s| ==> IsDigit(s[k])
  {
    if n < 10 then [Digit(n)] else Digits(n / 10) + [Digit(n % 10)]
  }

  function IntText(i: int): string { if i < 0 then "-" + Digits(-i) else Digits(i) }

  /** Values without floating point numbers, in which the keys of a dictionary are distinct. */
  predicate Plain(v: Value) {
    match v
    case Float(_) => false
    case Power(_, _) => false
    case List(items) => forall i :: 0 <= i < |items| ==> Plain(items[i])
    case Dict(entries) =>
      && (forall i :: 0 <= i < |entries| ==> Plain(entries[i].key) && Plain(entries[i].value))
      && (forall i, j :: 0 <= i < j < |entries| ==> entries[i].key != entries[j].key)
    case _ => true
  }

  /** What `JsonWriter.write` returns. */
  function Write(v: Value, slash: bool): string
    requires Plain(v)
    decreases v, 1, 0
  {
    match v
    case Null => "null"
    case Bool(b) => if b then "true" else "false"
    case Int(i) => IntText(i)
    case Str(s) => "\"" + Escaped(s, slash) + "\""
    case List(items) => "[" + WriteItems(v, 0, slash) + "]"
    case Dict(entries) => "{" + WriteEntries(v, 0, slash) + "}"
  }

  /** The items from number `i` on, with commas between them. */
  function WriteItems(v: Value, i: nat, slash: bool): string
    requires v.List? && Plain(v) && i <= |v.items|
    decreases v, 0, |v.items| - i
  {
    if i == |v.items| then ""
    else Write(v.items[i], slash) + (if i + 1 < |v.items| then "," else "") + WriteItems(v, i + 1, slash)
  }

  function WriteEntries(v: Value, i: nat, slash: bool): string
    requires v.Dict? && Plain(v) && i <= |v.entries|
    decreases v, 0, |v.entries| - i
  {
    if i == |v.entries| then ""
    else
      Write(v.entries[i].key, slash) + ":" + Write(v.entries[i].value, slash)
      + (if i + 1 < |v.entries| then "," else "") + WriteEntries(v, i + 1, slash)
  }

  // ---------------------------------------------------------------------------
  // Reading

  predicate IsSpace(c: char) {
    c == ' ' || c == '\t' || c == '\n' || c == '\r' || c == VerticalTab || c == FormFeed
  }

  predicate IsDigit(c: char) { '0' <= c <= '9' }

  /** The rest of a `//` comment, which the end of the input also ends. */
  function SkipLine(s: string): (r: string)
    ensures |r| <= |s|
  {
    if s == [] then [] else if s[0] == '\r' || s[0] == '\n' then s[1..] else SkipLine(s[1..])
  }

  /** The rest of a block comment: not nested, and ended explicitly. */
  function SkipBlock(s: string): (r: Parse<()>)
    ensures r.Ok? ==> |r.rest| <= |s|
  {
    if s == [] then Err(Malformed)
    else if |s| > 1 && s[0] == '*' && s[1] == '/' then Ok((), s[2..])
    else if |s| > 1 && s[0] == '/' && s[1] == '*' then Err(Malformed)
    else SkipBlock(s[1..])
  }

  function SkipComment(s: string): (r: Parse<()>)
    requires s != []
    ensures r.Ok? ==> |r.rest| < |s|
  {
    if |s| == 1 then Err(EndOfInput)
    else if s[1] == '/' then Ok((), SkipLine(s[2..]))
    else if s[1] == '*' then SkipBlock(s[2..])
    else Err(Malformed)
  }

  /** White space and comments. */
  function SkipSpace(s: string): (r: Parse<()>)
    ensures r.Ok? ==> |r.rest| <= |s|
    ensures r.Ok? && r.rest != [] ==> !IsSpace(r.rest[0]) && r.rest[0] != '/'
    decreases |s|
  {
    if s == [] then Ok((), s)
    else if IsSpace(s[0]) then SkipSpace(s[1..])
    else if s[0] != '/' then Ok((), s)
    else
      var c := SkipComment(s);
      if c.Err? then c else SkipSpace(c.rest)
  }

  /** A fixed word, character by character. */
  function ReadWord(s: string, word: string, v: Value): (r: Parse<Value>)
    ensures r.Ok? ==> |r.rest| + |word| == |s|
  {
    if word == [] then Ok(v, s)
    else if s == [] then Err(EndOfInput)
    else if s[0] != word[0] then Err(Malformed)
    else ReadWord(s[1..], word[1..], v)
  }

  function Natural(s: string): nat
    requires forall k :: 0 <= k < |s| ==> IsDigit(s[k])
  {
    if s == [] then 0
    else
      assert IsDigit(s[|s| - 1]);
      Natural(s[..|s| - 1]) * 10 + (s[|s| - 1] - '0') as nat
  }

  /** `int(s)` where all characters but perhaps the first are digits. */
  function Integer(s: string): Parse<Value>
    requires s != [] && forall k :: 1 <= k < |s| ==> IsDigit(s[k])
  {
    if IsDigit(s[0]) then Ok(Int(Natural(s)), [])
    else if |s| == 1 then Err(Malformed)
    else if s[0] == '-' then Ok(Int(0 - Natural(s[1..])), [])
    else if s[0] == '+' || IsSpace(s[0]) then Ok(Int(Natural(s[1..])), [])
    else Err(Malformed)
  }

  predicate NumberChar(c: char) { IsDigit(c) || c == '.' }

  function Count(s: string, c: char): nat {
    if s == [] then 0 else (if s[0] == c then 1 else 0) + Count(s[1..], c)
  }

  /** `float(s)` succeeds on a text of digits and dots after a sign or white space: one dot at most, and some digit. */
  predicate FloatText(s: string)
    requires s != []
  {
    var t := Unsigned(s);
    Numeric(t) && Count(t, '.') <= 1 && Count(t, '.') < |t|
  }

  predicate Numeric(s: string) { forall k :: 0 <= k < |s| ==> NumberChar(s[k]) }

  /** Without a sign or white space in front. */
  function Unsigned(s: string): string
    requires s != []
  {
    if s[0] == '-' || s[0] == '+' || IsSpace(s[0]) then s[1..] else s
  }

  /** The digits of a text, and how many of them are behind its dot. */
  function Undotted(s: string): (t: string)
    requires Numeric(s)
    ensures forall k :: 0 <= k < |t| ==> IsDigit(t[k])
  {
    if s == [] then [] else
      assert NumberChar(s[0]);
      (if s[0] == '.' then [] else [s[0]]) + Undotted(s[1..])
  }

  function Places(s: string): nat {
    if s == [] then 0 else if s[0] == '.' then |s| - 1 else Places(s[1..])
  }

  function Tens(n: nat): (r: real)
    ensures r > 0.0
  {
    if n == 0 then 1.0 else 10.0 * Tens(n - 1)
  }

  /** `10 ** n` */
  function Power10(n: int): real { if n >= 0 then Tens(n) else 1.0 / Tens(-n) }

  /** `float(s)` */
  function Decimal(s: string): real
    requires s != [] && FloatText(s)
  {
    var t := Unsigned(s);
    var x := Natural(Undotted(t)) as real / Tens(Places(t));
    if s[0] == '-' then -x else x
  }

  /** `x` with its point moved by `n` places. */
  function Shifted(x: real, n: int): real { x * Power10(n) }

  /** `x * 10 ** exponent` */
  function Raised(x: real, exponent: Value): (v: Value)
    requires exponent.Int? || exponent.Float?
    ensures if exponent.Int? then v.Float? else v.Power?
  {
    match exponent
    case Int(n) => Float(Shifted(x, n))
    case Float(e) => Power(x, e)
  }

  /** The number whose text has been collected. */
  function Number(text: string, float: bool, exponent: Value, rest: string): Parse<Value>
    requires text != [] && (float || forall k :: 1 <= k < |text| ==> IsDigit(text[k]))
    requires exponent.Int? || exponent.Float?
  {
    if float then (if FloatText(text) then Ok(Raised(Decimal(text), exponent), rest) else Err(Malformed))
    else
      var n := Integer(text);
      if n.Ok? then Ok(n.value, rest) else n
  }

  /** The loop of `_readNumber`, with `text` collected so far. */
  function ReadDigits(s: string, allowExp: bool, text: string, float: bool): (r: Parse<Value>)
    requires text != [] && (float || forall k :: 1 <= k < |text| ==> IsDigit(text[k]))
    ensures r.Ok? ==> |r.rest| <= |s| && (r.value.Int? || r.value.Float? || (allowExp && r.value.Power?))
    decreases |s|
  {
    if s == [] then Number(text, float, Int(0), s)
    else if allowExp && s[0] == 'e' then
      var x := ReadNumber(s[1..], false);
      if x.Err? then x else Number(text, true, x.value, x.rest)
    else if NumberChar(s[0]) then ReadDigits(s[1..], allowExp, text + [s[0]], float || s[0] == '.')
    else Number(text, float, Int(0), s)
  }

  /** `_readNumber`: the first character is taken as it comes. */
  function ReadNumber(s: string, allowExp: bool): (r: Parse<Value>)
    ensures r.Ok? ==> |r.rest| < |s| && (r.value.Int? || r.value.Float? || (allowExp && r.value.Power?))
    decreases |s|
  {
    if s == [] then Err(EndOfInput) else ReadDigits(s[1..], allowExp, [s[0]], false)
  }

  function HexDigit(c: char): Parse<nat> {
    if IsDigit(c) then Ok((c - '0') as nat, [])
    else if 'A' <= c <= 'F' then Ok((c - 'A') as nat + 10, [])
    else if 'a' <= c <= 'f' then Ok((c - 'a') as nat + 10, [])
    else Err(Malformed)
  }

  /** The character with this hexadecimal number, as a byte. */
  function HexChar(ch4096: char, ch256: char, ch16: char, ch1: char): Parse<char> {
    var a, b, c, d := HexDigit(ch4096), HexDigit(ch256), HexDigit(ch16), HexDigit(ch1);
    if a.Err? || b.Err? || c.Err? || d.Err? then Err(Malformed)
    else
      var n := 4096 * a.value + 256 * b.value + 16 * c.value + d.value;
      if n < 128 then Ok(n as char, []) else Err(NotAscii)
  }

  /** The four digits of a `\u` escape. */
  function ReadHex(s: string): (r: Parse<char>)
    ensures r.Ok? ==> |r.rest| < |s|
  {
    if |s| < 4 then Err(Malformed)
    else
      var c := HexChar(s[0], s[1], s[2], s[3]);
      if c.Err? then c else Ok(c.value, s[4..])
  }

  /** The character an escape stands for, after its backslash. */
  function ReadEscape(s: string): (r: Parse<char>)
    ensures r.Ok? ==> |r.rest| < |s|
  {
    if s == [] then Err(Malformed)
    else if s[0] == 'b' then Ok(Backspace, s[1..])
    else if s[0] == 'r' then Ok('\r', s[1..])
    else if s[0] == 'n' then Ok('\n', s[1..])
    else if s[0] == 'f' then Ok(FormFeed, s[1..])
    else if s[0] == 't' then Ok('\t', s[1..])
    else if s[0] == 'u' then ReadHex(s[1..])
    else if s[0] == '"' || s[0] == '/' || s[0] == '\\' then Ok(s[0], s[1..])
    else Err(Malformed)
  }

  /** The loop of `_readString`, with `text` collected so far. */
  function ReadChars(s: string, text: string): (r: Parse<string>)
    ensures r.Ok? ==> |r.rest| < |s|
    decreases |s|
  {
    if s == [] then Err(Malformed)
    else if s[0] == '"' then Ok(text, s[1..])
    else if s[0] == '\\' then
      var c := ReadEscape(s[1..]);
      if c.Err? then Err(c.error) else ReadChars(c.rest, text + [c.value])
    else ReadChars(s[1..], text + [s[0]])
  }

  function ReadString(s: string): (r: Parse<Value>)
    requires s != []
    ensures r.Ok? ==> |r.rest| < |s| && r.value.Str?
  {
    var t := ReadChars(s[1..], []);
    if t.Err? then Err(t.error) else Ok(Str(t.value), t.rest)
  }

  /** `_read`. */
  function Read(s: string): (r: Parse<Value>)
    ensures r.Ok? ==> |r.rest| < |s|
    decreases |s|, 1
  {
    var space := SkipSpace(s);
    if space.Err? then Err(space.error)
    else
      var t := space.rest;
      if t == [] then Err(Malformed)
      else if t[0] == '{' then
        if |t| > 1 && t[1] == '}' then Ok(Dict([]), t[2..]) else ReadEntries(t[1..], [])
      else if t[0] == '[' then
        if |t| > 1 && t[1] == ']' then Ok(List([]), t[2..]) else ReadItems(t[1..], [])
      else if t[0] == '"' then ReadString(t)
      else if t[0] == '-' || IsDigit(t[0]) then ReadNumber(t, true)
      else if t[0] == 't' then ReadWord(t, "true", Bool(true))
      else if t[0] == 'f' then ReadWord(t, "false", Bool(false))
      else if t[0] == 'n' then ReadWord(t, "null", Null)
      else Err(Malformed)
  }

  /** After an item or entry: its separator, white space before it; true for the closing bracket. */
  function ReadSeparator(s: string, close: char): (r: Parse<bool>)
    ensures r.Ok? ==> |r.rest| < |s|
  {
    var space := SkipSpace(s);
    if space.Err? then Err(space.error)
    else if space.rest == [] then Err(EndOfInput)
    else if space.rest[0] == close then Ok(true, space.rest[1..])
    else if space.rest[0] == ',' then Ok(false, space.rest[1..])
    else Err(Malformed)
  }

  /** The loop of `_readArray`, with `items` collected so far. */
  function ReadItems(s: string, items: seq<Value>): (r: Parse<Value>)
    ensures r.Ok? ==> |r.rest| < |s|
    decreases |s|, 2
  {
    var x := Read(s);
    if x.Err? then x
    else
      var sep := ReadSeparator(x.rest, ']');
      if sep.Err? then Err(sep.error)
      else if sep.value then Ok(List(items + [x.value]), sep.rest)
      else ReadItems(sep.rest, items + [x.value])
  }

  /** Assignment to a dictionary: an entry with the same key keeps its place. */
  function Put(entries: seq<Entry>, k: Value, v: Value): seq<Entry> {
    if entries == [] then [Entry(k, v)]
    else if entries[0].key == k then [Entry(k, v)] + entries[1..]
    else [entries[0]] + Put(entries[1..], k, v)
  }

  /** A key, a colon and a value. */
  function ReadEntry(s: string): (r: Parse<Entry>)
    ensures r.Ok? ==> |r.rest| < |s| && r.value.key.Str?
    decreases |s|, 2
  {
    var k := Read(s);
    if k.Err? then Err(k.error)
    else if !k.value.Str? then Err(Malformed)
    else
      var space := SkipSpace(k.rest);
      if space.Err? then Err(space.error)
      else if space.rest == [] then Err(EndOfInput)
      else if space.rest[0] != ':' then Err(Malformed)
      else
        var x := Read(space.rest[1..]);
        if x.Err? then Err(x.error) else Ok(Entry(k.value, x.value), x.rest)
  }

  /** The loop of `_readObject`, with `entries` collected so far. */
  function ReadEntries(s: string, entries: seq<Entry>): (r: Parse<Value>)
    ensures r.Ok? ==> |r.rest| < |s|
    decreases |s|, 3
  {
    var e := ReadEntry(s);
    if e.Err? then Err(e.error)
    else
      var entries' := Put(entries, e.value.key, e.value.value);
      var sep := ReadSeparator(e.rest, '}');
      if sep.Err? then Err(sep.error)
      else if sep.value then Ok(Dict(entries'), sep.rest)
      else ReadEntries(sep.rest, entries')
  }

  /** `JsonReader.read`: what follows the value is not looked at. */
  function ReadText(s: string): Parse<Value> {
    var r := Read(s);
    if r.Ok? then Ok(r.value, []) else r
  }

  // ---------------------------------------------------------------------------
  // The reader undoes the writer

  /** What may follow a value in the writer's output. */
  predicate Ends(s: string) { s == [] || s[0] == ',' || s[0] == ']' || s[0] == '}' || s[0] == ':' }

  /** A text the reader does not skip any of. */
  predicate Solid(s: string) { s != [] && !IsSpace(s[0]) && s[0] != '/' }

  lemma SkipNothing(s: string)
    requires s == [] || Solid(s)
    ensures SkipSpace(s) == Ok((), s)
  {
  }

  lemma {:induction false} NaturalDigits(n: nat)
    ensures Natural(Digits(n)) == n
  {
    if n < 10 {
      assert Digits(n)[..0] == [];
      assert Natural([]) == 0;
    } else {
      NaturalDigits(n / 10);
      assert Digits(n)[..|Digits(n)| - 1] == Digits(n / 10);
    }
  }

  /** Digits are collected until something else follows. */
  lemma {:induction false} CollectDigits(d: string, rest: string, text: string)
    requires forall k :: 0 <= k < |d| ==> IsDigit(d[k])
    requires text != [] && forall k :: 1 <= k < |text| ==> IsDigit(text[k])
    requires Ends(rest)
    ensures ReadDigits(d + rest, true, text, false) == Number(text + d, false, Int(0), rest)
  {
    if d == [] {
      assert d + rest == rest && text + d == text;
    } else {
      var s := d + rest;
      assert s[0] == d[0] && s[1..] == d[1..] + rest;
      assert IsDigit(d[0]);
      CollectDigits(d[1..], rest, text + [d[0]]);
      assert text + [d[0]] + d[1..] == text + d;
    }
  }

  lemma IntegerText(i: int)
    ensures var t := IntText(i);
      t != [] && (t[0] == '-' || IsDigit(t[0])) && (forall k :: 1 <= k < |t| ==> IsDigit(t[k])) && Integer(t) == Ok(Int(i), [])
  {
    var t := IntText(i);
    var n: nat := if i < 0 then -i else i;
    NaturalDigits(n);
    assert IsDigit(Digits(n)[0]);
    assert i < 0 ==> t[1..] == Digits(n);
  }

  lemma ReadInt(i: int, rest: string)
    requires Ends(rest)
    ensures Read(IntText(i) + rest) == Ok(Int(i), rest)
  {
    IntegerText(i);
    hide IntText, Integer;
    var t := IntText(i);
    var s := t + rest;
    assert s[0] == t[0] && s[1..] == t[1..] + rest;
    SkipNothing(s);
    CollectDigits(t[1..], rest, [t[0]]);
    assert [t[0]] + t[1..] == t;
    hide ReadDigits;
  }

  lemma ReadEscaped(c: char, slash: bool, rest: string)
    ensures EscapedChar(c, slash) == [c] ==> c != '"' && c != '\\'
    ensures EscapedChar(c, slash) != [c] ==>
      var e := EscapedChar(c, slash);
      |e| == 2 && e[0] == '\\' && ReadEscape([e[1]] + rest) == Ok(c, rest)
  {
    var e := EscapedChar(c, slash);
    if |e| == 2 {
      var s := [e[1]] + rest;
      assert s[1..] == rest;
    }
  }

  lemma ReadOneChar(c: char, slash: bool, more: string, text: string)
    ensures ReadChars(EscapedChar(c, slash) + more, text) == ReadChars(more, text + [c])
  {
    var e := EscapedChar(c, slash);
    var all := e + more;
    ReadEscaped(c, slash, more);
    hide EscapedChar, ReadEscape;
    if e == [c] {
      assert all[0] == c && all[1..] == more;
    } else {
      assert all[0] == '\\' && all[1..] == [e[1]] + more;
    }
  }

  lemma EachFirst(s: string, slash: bool, quote: string, rest: string)
    requires s != []
    ensures EscapedEach(s, slash) + quote + rest == EscapedChar(s[0], slash) + (EscapedEach(s[1..], slash) + quote + rest)
  {
    var e, each := EscapedChar(s[0], slash), EscapedEach(s[1..], slash);
    assert EscapedEach(s, slash) == e + each;
    hide EscapedEach, EscapedChar;
    Regroup(e, each, quote);
    Regroup(e, each + quote, rest);
  }

  lemma ReadQuote(rest: string, text: string)
    ensures ReadChars("\"" + rest, text) == Ok(text, rest)
  {
    assert ("\"" + rest)[1..] == rest;
  }

  lemma {:induction false} ReadEach(s: string, slash: bool, rest: string, text: string)
    ensures ReadChars(EscapedEach(s, slash) + "\"" + rest, text) == Ok(text + s, rest)
  {
    hide ReadChars, EscapedChar;
    if s == [] {
      assert EscapedEach(s, slash) + "\"" == "\"";
      ReadQuote(rest, text);
      assert text + s == text;
    } else {
      EachFirst(s, slash, "\"", rest);
      hide EscapedEach;
      ReadOneChar(s[0], slash, EscapedEach(s[1..], slash) + "\"" + rest, text);
      ReadEach(s[1..], slash, rest, text + [s[0]]);
      assert text + [s[0]] + s[1..] == text + s;
    }
  }

  lemma ReadStr(s: string, slash: bool, rest: string)
    ensures Read("\"" + Escaped(s, slash) + "\"" + rest) == Ok(Str(s), rest)
  {
    hide ReadChars, Escaped, EscapedEach;
    EscapedIsEach(s, slash);
    ReadEach(s, slash, rest, []);
    var quoted := EscapedEach(s, slash) + "\"" + rest;
    var all := "\"" + Escaped(s, slash) + "\"" + rest;
    assert all == "\"" + quoted;
    assert [] + s == s;
    ReadQuoted(all, quoted);
  }

  lemma ReadQuoted(all: string, quoted: string)
    requires all == "\"" + quoted && ReadChars(quoted, []).Ok?
    ensures Read(all) == Ok(Str(ReadChars(quoted, []).value), ReadChars(quoted, []).rest)
  {
    hide ReadChars;
    assert all[0] == '"' && all[1..] == quoted;
    SkipNothing(all);
  }

  /** Every dictionary has string keys only. */
  predicate StringKeys(v: Value) {
    match v
    case List(items) => forall i :: 0 <= i < |items| ==> StringKeys(items[i])
    case Dict(entries) => forall i :: 0 <= i < |entries| ==> entries[i].key.Str? && StringKeys(entries[i].value)
    case _ => true
  }

  predicate ItemKeys(items: seq<Value>, i: nat) { forall k :: i <= k < |items| ==> StringKeys(items[k]) }

  predicate EntryKeys(entries: seq<Entry>, i: nat) {
    forall k :: i <= k < |entries| ==> entries[k].key.Str? && StringKeys(entries[k].value)
  }

  lemma ReadConstant(v: Value, slash: bool, rest: string)
    requires v.Null? || v.Bool?
    ensures Read(Write(v, slash) + rest) == Ok(v, rest)
  {
    var w := Write(v, slash);
    var s := w + rest;
    SkipNothing(s);
    WordBack(w, rest, v);
  }

  lemma {:induction false} WordBack(w: string, rest: string, v: Value)
    ensures ReadWord(w + rest, w, v) == Ok(v, rest)
  {
    if w == [] {
      assert w + rest == rest;
    } else {
      assert (w + rest)[1..] == w[1..] + rest;
      WordBack(w[1..], rest, v);
    }
  }

  /** The writer's output starts with neither white space nor a closing bracket. */
  lemma WriteStarts(v: Value, slash: bool)
    requires Plain(v)
    ensures var s := Write(v, slash); Solid(s) && s[0] != ']' && s[0] != '}'
  {
    if v.Int? {
      assert v.i >= 0 ==> IsDigit(Digits(v.i)[0]);
    }
  }

  /** A key that is not there yet is added at the end. */
  lemma {:induction false} PutNew(entries: seq<Entry>, k: Value, v: Value)
    requires forall i :: 0 <= i < |entries| ==> entries[i].key != k
    ensures Put(entries, k, v) == entries + [Entry(k, v)]
  {
    if entries != [] {
      PutNew(entries[1..], k, v);
      assert entries + [Entry(k, v)] == [entries[0]] + (entries[1..] + [Entry(k, v)]);
    }
  }

  /** The reader on the writer's output: the value, unless some key is not a string. */
  ghost function Back<T>(ok: bool, v: T, rest: string): Parse<T> {
    if ok then Ok(v, rest) else Err(Malformed)
  }

  lemma {:induction false} ReadsBack(v: Value, slash: bool, rest: string)
    requires Plain(v) && Ends(rest)
    ensures Read(Write(v, slash) + rest) == Back(StringKeys(v), v, rest)
    decreases v, 1, 0
  {
    KeysOfParts(v);
    if v.List? && v.items != [] {
      hide Read, ReadItems, Write, WriteItems, Plain, StringKeys, ItemKeys;
      ItemsBack(v, 0, slash, rest);
      ListBack(v, slash, rest);
      assert v.items[..0] == [];
    } else if v.Dict? && v.entries != [] {
      hide Read, ReadEntries, Write, WriteEntries, Plain, StringKeys, EntryKeys;
      EntriesBack(v, 0, slash, rest);
      DictBack(v, slash, rest);
      assert v.entries[..0] == [];
    } else {
      LeafBack(v, slash, rest);
    }
  }

  lemma KeysOfParts(v: Value)
    ensures v.List? ==> (StringKeys(v) <==> ItemKeys(v.items, 0))
    ensures v.Dict? ==> (StringKeys(v) <==> EntryKeys(v.entries, 0))
    ensures !v.List? && !v.Dict? ==> StringKeys(v)
    ensures v == List([]) || v == Dict([]) ==> StringKeys(v)
  {
  }

  lemma LeafBack(v: Value, slash: bool, rest: string)
    requires Plain(v) && Ends(rest)
    requires (v.List? ==> v.items == []) && (v.Dict? ==> v.entries == [])
    ensures Read(Write(v, slash) + rest) == Ok(v, rest)
  {
    hide Read, Escaped, IntText, Ends;
    match v
    case Int(i) => ReadInt(i, rest);
    case Str(s) => ReadStr(s, slash, rest);
    case List(_) => EmptyBack(v, slash, rest);
    case Dict(_) => EmptyBack(v, slash, rest);
    case Null => ReadConstant(v, slash, rest);
    case Bool(_) => ReadConstant(v, slash, rest);
  }

  lemma EmptyBack(v: Value, slash: bool, rest: string)
    requires v == List([]) || v == Dict([])
    ensures Read(Write(v, slash) + rest) == Ok(v, rest)
  {
    var s := Write(v, slash) + rest;
    SkipNothing(s);
    assert s[2..] == rest;
  }

  lemma Bracketed(open: string, inner: string, close: string, rest: string)
    requires |open| == 1
    ensures open + inner + close + rest == open + (inner + close + rest)
    ensures var s := open + inner + close + rest; s[0] == open[0] && s[1..] == inner + close + rest
  {
    var t := inner + close + rest;
    assert open + inner + close + rest == open + t;
    assert (open + t)[1..] == t;
  }

  lemma ListBack(v: Value, slash: bool, rest: string)
    requires v.List? && Plain(v) && v.items != []
    ensures Read(Write(v, slash) + rest) == ReadItems(WriteItems(v, 0, slash) + "]" + rest, [])
  {
    hide WriteItems, Plain, ReadItems;
    var inner := WriteItems(v, 0, slash);
    FirstItem(v, slash);
    Bracketed("[", inner, "]", rest);
    SkipNothing(Write(v, slash) + rest);
  }

  lemma FirstItem(v: Value, slash: bool)
    requires v.List? && Plain(v) && v.items != []
    ensures var s := WriteItems(v, 0, slash); s != [] && s[0] != ']'
  {
    WriteStarts(v.items[0], slash);
    hide Write;
  }

  lemma DictBack(v: Value, slash: bool, rest: string)
    requires v.Dict? && Plain(v) && v.entries != []
    ensures Read(Write(v, slash) + rest) == ReadEntries(WriteEntries(v, 0, slash) + "}" + rest, [])
  {
    hide WriteEntries, Plain, ReadEntries;
    var inner := WriteEntries(v, 0, slash);
    FirstEntry(v, slash);
    Bracketed("{", inner, "}", rest);
    SkipNothing(Write(v, slash) + rest);
  }

  lemma FirstEntry(v: Value, slash: bool)
    requires v.Dict? && Plain(v) && v.entries != []
    ensures var s := WriteEntries(v, 0, slash); s != [] && s[0] != '}'
  {
    WriteStarts(v.entries[0].key, slash);
    hide Write;
  }

  /** The text after an item or entry of a list or dictionary. */
  function After(last: bool, close: char, more: string, rest: string): string {
    if last then [close] + rest else "," + more + [close] + rest
  }

  lemma SeparatorBack(last: bool, close: char, more: string, rest: string)
    requires close == ']' || close == '}'
    ensures Ends(After(last, close, more, rest))
    ensures ReadSeparator(After(last, close, more, rest), close) == if last then Ok(true, rest) else Ok(false, more + [close] + rest)
  {
    var s := After(last, close, more, rest);
    SkipNothing(s);
    if last { assert s[1..] == rest; } else { assert s[1..] == more + [close] + rest; }
  }

  lemma ItemsText(v: Value, i: nat, slash: bool, rest: string)
    requires v.List? && Plain(v) && i < |v.items|
    ensures WriteItems(v, i, slash) + "]" + rest
              == Write(v.items[i], slash) + After(i + 1 == |v.items|, ']', WriteItems(v, i + 1, slash), rest)
  {
    hide Write, Plain;
  }

  lemma EntriesUnfold(v: Value, i: nat, slash: bool)
    requires v.Dict? && Plain(v) && i < |v.entries|
    ensures WriteEntries(v, i, slash) ==
              Write(v.entries[i].key, slash) + ":" + Write(v.entries[i].value, slash)
              + (if i + 1 < |v.entries| then "," else "") + WriteEntries(v, i + 1, slash)
  {
  }

  lemma EntryRegroup(k: string, x: string, comma: string, more: string, rest: string)
    ensures k + ":" + x + comma + more + "}" + rest == k + (":" + (x + (comma + more + "}" + rest)))
  {
    var t := comma + more + "}" + rest;
    assert x + comma + more + "}" + rest == x + t;
    assert ":" + x + comma + more + "}" + rest == ":" + (x + t);
  }

  lemma NoMoreEntries(v: Value, slash: bool)
    requires v.Dict? && Plain(v)
    ensures WriteEntries(v, |v.entries|, slash) == ""
  {
  }

  lemma EntriesText(v: Value, i: nat, slash: bool, rest: string)
    requires v.Dict? && Plain(v) && i < |v.entries|
    ensures WriteEntries(v, i, slash) + "}" + rest
              == Write(v.entries[i].key, slash) + (":" + (Write(v.entries[i].value, slash) +
                 After(i + 1 == |v.entries|, '}', WriteEntries(v, i + 1, slash), rest)))
  {
    hide Write, WriteEntries, Plain;
    PlainParts(v, i);
    EntriesUnfold(v, i, slash);
    NoMoreEntries(v, slash);
    var comma := if i + 1 < |v.entries| then "," else "";
    EntryRegroup(Write(v.entries[i].key, slash), Write(v.entries[i].value, slash), comma, WriteEntries(v, i + 1, slash), rest);
    assert After(i + 1 == |v.entries|, '}', WriteEntries(v, i + 1, slash), rest) == comma + WriteEntries(v, i + 1, slash) + "}" + rest;
  }

  lemma ItemsStep(s: string, t: string, items: seq<Value>, x: Value, ok: bool, last: bool, next: string)
    requires Read(s) == Back(ok, x, t) && ReadSeparator(t, ']') == Ok(last, next)
    ensures ReadItems(s, items) ==
      if !ok then Err(Malformed) else if last then Ok(List(items + [x]), next) else ReadItems(next, items + [x])
  {
    hide Read, ReadSeparator;
  }

  lemma EntriesStep(s: string, t: string, entries: seq<Entry>, e: Entry, ok: bool, last: bool, next: string)
    requires ReadEntry(s) == Back(ok, e, t) && ReadSeparator(t, '}') == Ok(last, next)
    requires forall i :: 0 <= i < |entries| ==> entries[i].key != e.key
    ensures ReadEntries(s, entries) ==
      if !ok then Err(Malformed) else if last then Ok(Dict(entries + [e]), next) else ReadEntries(next, entries + [e])
  {
    hide ReadEntry, ReadSeparator;
    PutNew(entries, e.key, e.value);
  }

  lemma PlainParts(v: Value, i: nat)
    requires Plain(v)
    ensures v.List? && i < |v.items| ==> Plain(v.items[i])
    ensures v.Dict? && i < |v.entries| ==> Plain(v.entries[i].key) && Plain(v.entries[i].value)
    ensures v.Dict? && i < |v.entries| ==> forall k :: 0 <= k < i ==> v.entries[..i][k].key != v.entries[i].key
  {
  }

  lemma ItemKeysStep(items: seq<Value>, i: nat)
    requires i < |items|
    ensures ItemKeys(items, i) <==> StringKeys(items[i]) && (i + 1 == |items| || ItemKeys(items, i + 1))
    ensures items[..i] + [items[i]] == items[..i + 1]
    ensures items[..|items|] == items
  {
    hide StringKeys;
  }

  lemma EntryKeysStep(entries: seq<Entry>, i: nat)
    requires i < |entries|
    ensures EntryKeys(entries, i) <==> entries[i].key.Str? && StringKeys(entries[i].value) && (i + 1 == |entries| || EntryKeys(entries, i + 1))
    ensures entries[..i] + [entries[i]] == entries[..i + 1]
    ensures entries[..|entries|] == entries
  {
    hide StringKeys;
  }

  lemma {:induction false} ItemsBack(v: Value, i: nat, slash: bool, rest: string)
    requires v.List? && Plain(v) && i < |v.items|
    ensures ReadItems(WriteItems(v, i, slash) + "]" + rest, v.items[..i]) == Back(ItemKeys(v.items, i), v, rest)
    decreases v, 0, |v.items| - i
  {
    hide Read, ReadItems, ReadSeparator, Write, WriteItems, After, Plain, StringKeys, ItemKeys, Ends;
    var x, last := v.items[i], i + 1 == |v.items|;
    var more := WriteItems(v, i + 1, slash);
    var after := After(last, ']', more, rest);
    PlainParts(v, i);
    ItemsText(v, i, slash, rest);
    SeparatorBack(last, ']', more, rest);
    ReadsBack(x, slash, after);
    ItemKeysStep(v.items, i);
    ItemsStep(Write(x, slash) + after, after, v.items[..i], x, StringKeys(x), last, if last then rest else more + "]" + rest);
    if !last { ItemsBack(v, i + 1, slash, rest); }
  }

  lemma EntryBack(e: Entry, slash: bool, rest: string)
    requires Plain(e.key) && Plain(e.value) && Ends(rest)
    requires Read(Write(e.key, slash) + (":" + (Write(e.value, slash) + rest))) == Back(StringKeys(e.key), e.key, ":" + (Write(e.value, slash) + rest))
    requires Read(Write(e.value, slash) + rest) == Back(StringKeys(e.value), e.value, rest)
    ensures ReadEntry(Write(e.key, slash) + (":" + (Write(e.value, slash) + rest))) == Back(e.key.Str? && StringKeys(e.value), e, rest)
  {
    assert e.key.Str? ==> StringKeys(e.key);
    hide Read, Write, Plain, StringKeys;
    var pair := ":" + (Write(e.value, slash) + rest);
    SkipNothing(pair);
    assert pair[1..] == Write(e.value, slash) + rest;
  }

  lemma {:induction false} EntriesBack(v: Value, i: nat, slash: bool, rest: string)
    requires v.Dict? && Plain(v) && i < |v.entries|
    ensures ReadEntries(WriteEntries(v, i, slash) + "}" + rest, v.entries[..i]) == Back(EntryKeys(v.entries, i), v, rest)
    decreases v, 0, |v.entries| - i
  {
    assert forall s: string :: Ends(":" + s);
    hide Read, ReadEntry, ReadEntries, ReadSeparator, Write, WriteEntries, After, Plain, StringKeys, EntryKeys, Ends;
    var e, last := v.entries[i], i + 1 == |v.entries|;
    var more := WriteEntries(v, i + 1, slash);
    var after := After(last, '}', more, rest);
    PlainParts(v, i);
    EntriesText(v, i, slash, rest);
    SeparatorBack(last, '}', more, rest);
    var pair := ":" + (Write(e.value, slash) + after);
    ReadsBack(e.key, slash, pair);
    ReadsBack(e.value, slash, after);
    EntryBack(e, slash, after);
    EntryKeysStep(v.entries, i);
    EntriesStep(Write(e.key, slash) + pair, after, v.entries[..i], e, e.key.Str? && StringKeys(e.value), last,
                if last then rest else more + "}" + rest);
    if !last { EntriesBack(v, i + 1, slash, rest); }
  }

  /** Reading what the writer wrote gives the value back, exactly when every dictionary key is a string. */
  lemma RoundTrip(v: Value, slash: bool)
    requires Plain(v)
    ensures ReadText(Write(v, slash)) == if StringKeys(v) then Ok(v, []) else Err(Malformed)
  {
    ReadsBack(v, slash, []);
    assert Write(v, slash) + [] == Write(v, slash);
  }

  /** Different values are written differently, even under different options. */
  lemma WriterInjective(v: Value, w: Value, slash: bool, slash': bool)
    requires Plain(v) && Plain(w) && StringKeys(v) && StringKeys(w)
    requires Write(v, slash) == Write(w, slash')
    ensures v == w
  {
    RoundTrip(v, slash);
    RoundTrip(w, slash');
  }

  // ---------------------------------------------------------------------------
  // Where the pair departs from RFC 8259

  lemma {:induction false} SkipBlanks(w: string, s: string)
    requires Solid(s) && forall k :: 0 <= k < |w| ==> IsSpace(w[k])
    ensures SkipSpace(w + s) == Ok((), s)
  {
    if w == [] {
      assert w + s == s;
    } else {
      assert IsSpace(w[0]) && (w + s)[1..] == w[1..] + s;
      SkipBlanks(w[1..], s);
    }
  }

  /** Section 4 allows white space between brackets; the reader takes an empty list only without any. */
  lemma EmptyListBlanks(w: string, rest: string)
    requires forall k :: 0 <= k < |w| ==> IsSpace(w[k])
    ensures Read("[" + w + "]" + rest) == Back(w == [], List([]), rest)
  {
    var s := "[" + w + "]" + rest;
    SkipNothing(s);
    if w == [] {
      assert s[1] == ']' && s[2..] == rest;
    } else {
      assert IsSpace(w[0]) && s[1] == w[0] && s[1..] == w + ("]" + rest);
      SkipBlanks(w, "]" + rest);
      assert Read(s[1..]) == Err(Malformed);
    }
  }

  predicate Control(c: char) { c < ' ' }

  /** The control characters that have a short escape. */
  predicate ShortEscape(c: char) { c == Backspace || c == FormFeed || c == '\n' || c == '\r' || c == '\t' }

  /**
   Section 7 requires control characters to be escaped; the writer's text is free
   of them exactly when the string has only those with a short escape.
   */
  lemma {:induction false} ControlsEscaped(s: string, slash: bool)
    ensures (forall k :: 0 <= k < |Escaped(s, slash)| ==> !Control(Escaped(s, slash)[k]))
            <==> (forall k :: 0 <= k < |s| && Control(s[k]) ==> ShortEscape(s[k]))
  {
    hide EscapedChar, Escaped, EscapedEach, Control, ShortEscape;
    EscapedIsEach(s, slash);
    if s == [] {
      NothingEscaped(slash);
    } else {
      ControlsEscaped(s[1..], slash);
      EscapedIsEach(s[1..], slash);
      var e, more := EscapedChar(s[0], slash), EscapedEach(s[1..], slash);
      EscapedControl(s[0], slash);
      EachSplit(s, slash);
      FreeOfControls(e, more);
      assert forall k :: 1 <= k < |s| ==> s[k] == s[1..][k - 1];
    }
  }

  lemma NothingEscaped(slash: bool)
    ensures EscapedEach([], slash) == []
  {
  }

  lemma EachSplit(s: string, slash: bool)
    requires s != []
    ensures EscapedEach(s, slash) == EscapedChar(s[0], slash) + EscapedEach(s[1..], slash)
  {
  }

  lemma EscapedControl(c: char, slash: bool)
    ensures var e := EscapedChar(c, slash);
      e != [] && ((forall k :: 0 <= k < |e| ==> !Control(e[k])) <==> (Control(c) ==> ShortEscape(c)))
  {
    var e := EscapedChar(c, slash);
    if Control(c) && !ShortEscape(c) { assert Control(e[0]); }
  }

  lemma FreeOfControls(a: string, b: string)
    ensures (forall k :: 0 <= k < |a + b| ==> !Control((a + b)[k]))
            <==> (forall k :: 0 <= k < |a| ==> !Control(a[k])) && (forall k :: 0 <= k < |b| ==> !Control(b[k]))
  {
    if forall k :: 0 <= k < |a + b| ==> !Control((a + b)[k]) {
      forall k | 0 <= k < |a| ensures !Control(a[k]) { assert (a + b)[k] == a[k]; }
      forall k | 0 <= k < |b| ensures !Control(b[k]) { assert (a + b)[|a| + k] == b[k]; }
    }
  }
}
