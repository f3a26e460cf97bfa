/**
 Whole JSON texts as `JsonReader` (tools/localjson.py) takes them: values with the
 white space and comments around them.  The reader accepts exactly these texts, and
 returns the values they stand for.
 */
module JsonLanguage {
  import opened Json
  import opened JsonGrammar
  import JsonReader

  datatype Tree = Tree(gap: Gap, form: Form)

  datatype Form =
    | Constant(v: Value)
    | Numeric(n: Num)
    | Quoted(pieces: seq<Piece>)
    | EmptyList
    | Listed(items: Items)
    | EmptyDict
    | Paired(entries: Entries)

  /** The items of a list, each with the gap behind it. */
  datatype Items = OneItem(tree: Tree, after: Gap) | MoreItems(tree: Tree, after: Gap, rest: Items)

  datatype Entries =
    | OneEntry(key: Tree, colon: Gap, tree: Tree, after: Gap)
    | MoreEntries(key: Tree, colon: Gap, tree: Tree, after: Gap, rest: Entries)

  predicate Good(t: Tree) { ValidGap(t.gap) && GoodForm(t.form) }

  predicate GoodForm(f: Form) {
    match f
    case Constant(v) => v.Null? || v.Bool?
    case Numeric(n) => ValidNum(n)
    case Quoted(p) => ValidPieces(p)
    case EmptyList => true
    case Listed(items) => GoodItems(items)
    case EmptyDict => true
    case Paired(entries) => GoodEntries(entries)
  }

  predicate GoodItems(i: Items) { Good(i.tree) && ValidGap(i.after) && (i.MoreItems? ==> GoodItems(i.rest)) }

  /** A key is a string. */
  predicate GoodEntries(e: Entries) {
    && Good(e.key) && e.key.form.Quoted? && ValidGap(e.colon) && Good(e.tree) && ValidGap(e.after)
    && (e.MoreEntries? ==> GoodEntries(e.rest))
  }

  function TreeText(t: Tree): string { GapText(t.gap) + FormText(t.form) }

  function Word(v: Value): string {
    match v
    case Bool(b) => if b then "true" else "false"
    case _ => "null"
  }

  function FormText(f: Form): string {
    match f
    case Constant(v) => Word(v)
    case Numeric(n) => NumText(n)
    case Quoted(p) => "\"" + PiecesText(p) + "\""
    case EmptyList => "[]"
    case Listed(items) => "[" + ItemsText(items) + "]"
    case EmptyDict => "{}"
    case Paired(entries) => "{" + EntriesText(entries) + "}"
  }

  function ItemsText(i: Items): string {
    TreeText(i.tree) + (GapText(i.after) + match i { case OneItem(_, _) => "" case MoreItems(_, _, rest) => "," + ItemsText(rest) })
  }

  function EntriesText(e: Entries): string {
    TreeText(e.key) + (GapText(e.colon) + (":" + (TreeText(e.tree) + (GapText(e.after) +
      match e { case OneEntry(_, _, _, _) => "" case MoreEntries(_, _, _, _, rest) => "," + EntriesText(rest) }))))
  }

  function TreeValue(t: Tree): Value
    requires Good(t)
  {
    FormValue(t.form)
  }

  function FormValue(f: Form): Value
    requires GoodForm(f)
  {
    match f
    case Constant(v) => v
    case Numeric(n) => NumValue(n)
    case Quoted(p) => Str(PiecesValue(p))
    case EmptyList => List([])
    case Listed(items) => List(ItemsValue(items))
    case EmptyDict => Dict([])
    case Paired(entries) => Dict(EntriesValue(entries, []))
  }

  function ItemsValue(i: Items): seq<Value>
    requires GoodItems(i)
  {
    [TreeValue(i.tree)] + match i { case OneItem(_, _) => [] case MoreItems(_, _, rest) => ItemsValue(rest) }
  }

  /** The entries put one after the other into `acc`: a repeated key takes the later value. */
  function EntriesValue(e: Entries, acc: seq<Entry>): seq<Entry>
    requires GoodEntries(e)
  {
    var acc' := Put(acc, TreeValue(e.key), TreeValue(e.tree));
    match e case OneEntry(_, _, _, _) => acc' case MoreEntries(_, _, _, _, rest) => EntriesValue(rest, acc')
  }

  /** What may stand behind a tree: a number must not go on. */
  predicate Follows(t: Tree, rest: string) { FollowsForm(t.form, rest) }

  predicate FollowsForm(f: Form, rest: string) { f.Numeric? ==> Stops(f.n, rest) }

  // ---------------------------------------------------------------------------
  // The reader returns the value of every text

  lemma FormStarts(f: Form)
    requires GoodForm(f)
    ensures var s := FormText(f); Solid(s) && s[0] != ']' && s[0] != '}'
  {
    match f
    case Numeric(n) => NumStarts(n);
    case Constant(v) =>
    case Quoted(p) =>
    case EmptyList =>
    case Listed(items) =>
    case EmptyDict =>
    case Paired(entries) =>
  }

  lemma NumStarts(n: Num)
    requires ValidNum(n)
    ensures var s := NumText(n); s != [] && (s[0] == '-' || IsDigit(s[0]))
  {
    BodyParts(n.mantissa);
    SignSplits(n.mantissa);
  }

  /** The first character of a gap is white space or the start of a comment. */
  lemma GapStarts(g: Gap)
    requires ValidGap(g) && g != []
    ensures var s := GapText(g); s != [] && (IsSpace(s[0]) || s[0] == '/')
  {
    assert ValidFiller(g[0]);
  }

  lemma TreeStarts(t: Tree)
    requires Good(t)
    ensures var s := TreeText(t); s != [] && s[0] != ']' && s[0] != '}'
  {
    hide FormText, GapText, ValidGap;
    FormStarts(t.form);
    if t.gap == [] { EmptyGap(); } else { GapStarts(t.gap); }
  }

  lemma EmptyGap()
    ensures GapText([]) == []
  {
  }

  /** Reading starts behind the gap. */
  lemma ReadBehindGap(g: Gap, s: string)
    requires ValidGap(g) && Solid(s)
    ensures Read(GapText(g) + s) == Read(s)
  {
    hide Read, SkipSpace, GapText, ValidGap;
    GapSkipped(g, s);
    JsonReader.SkipTwice(GapText(g) + s);
  }

  lemma SolidMore(s: string, t: string)
    requires Solid(s)
    ensures Solid(s + t)
  {
  }

  lemma ConstantRead(v: Value, rest: string)
    requires v.Null? || v.Bool?
    ensures Read(Word(v) + rest) == Ok(v, rest)
  {
    hide Read;
    ReadConstant(v, false, rest);
    assert Word(v) == Write(v, false);
  }

  lemma NumericRead(n: Num, rest: string)
    requires ValidNum(n) && Stops(n, rest)
    ensures Read(NumText(n) + rest) == Ok(NumValue(n), rest)
  {
    hide NumText, ReadNumber, NumValue, ValidNum;
    NumStarts(n);
    NumRead(n, rest);
    var s := NumText(n) + rest;
    assert s[0] == NumText(n)[0];
    SkipNothing(s);
  }

  lemma QuotedRead(p: seq<Piece>, rest: string)
    requires ValidPieces(p)
    ensures Read("\"" + PiecesText(p) + "\"" + rest) == Ok(Str(PiecesValue(p)), rest)
  {
    hide ReadChars, PiecesText, PiecesValue, Read;
    PiecesRead(p, rest, []);
    var quoted := PiecesText(p) + "\"" + rest;
    assert "\"" + PiecesText(p) + "\"" + rest == "\"" + quoted;
    assert [] + PiecesValue(p) == PiecesValue(p);
    ReadQuoted("\"" + quoted, quoted);
  }

  lemma {:induction false} TreeRead(t: Tree, rest: string)
    requires Good(t) && Follows(t, rest)
    ensures Read(TreeText(t) + rest) == Ok(TreeValue(t), rest)
    decreases t, 1
  {
    hide Read, FormText, GapText, GoodForm, ValidGap;
    FormStarts(t.form);
    FormRead(t.form, rest);
    SolidMore(FormText(t.form), rest);
    ReadBehindGap(t.gap, FormText(t.form) + rest);
    Regroup(GapText(t.gap), FormText(t.form), rest);
  }

  lemma {:induction false} FormRead(f: Form, rest: string)
    requires GoodForm(f) && FollowsForm(f, rest)
    ensures Read(FormText(f) + rest) == Ok(FormValue(f), rest)
    decreases f, 0
  {
    hide Read, ItemsText, EntriesText, NumText, PiecesText, ReadItems, ReadEntries, ValidNum, ValidPieces;
    match f
    case Constant(v) => ConstantRead(v, rest);
    case Numeric(n) => NumericRead(n, rest);
    case Quoted(p) => QuotedRead(p, rest);
    case EmptyList => EmptyRead(rest);
    case EmptyDict => EmptyRead(rest);
    case Listed(items) =>
      ItemsStart(items);
      Bracketed("[", ItemsText(items), "]", rest);
      JsonReader.ListStart("[" + ItemsText(items) + "]" + rest);
      ItemsRead(items, rest, []);
      assert [] + ItemsValue(items) == ItemsValue(items);
    case Paired(entries) =>
      EntriesStart(entries);
      Bracketed("{", EntriesText(entries), "}", rest);
      JsonReader.DictStart("{" + EntriesText(entries) + "}" + rest);
      EntriesRead(entries, rest, []);
  }

  lemma EmptyRead(rest: string)
    ensures Read("[]" + rest) == Ok(List([]), rest) && Read("{}" + rest) == Ok(Dict([]), rest)
  {
    hide Read;
    EmptyBack(List([]), false, rest);
    EmptyBack(Dict([]), false, rest);
    assert Write(List([]), false) == "[]" && Write(Dict([]), false) == "{}";
  }

  lemma ItemsStart(i: Items)
    requires GoodItems(i)
    ensures ItemsText(i) != [] && ItemsText(i)[0] != ']'
  {
    hide TreeText;
    TreeStarts(i.tree);
  }

  lemma EntriesStart(e: Entries)
    requires GoodEntries(e)
    ensures EntriesText(e) != [] && EntriesText(e)[0] != '}'
  {
    hide TreeText;
    TreeStarts(e.key);
  }

  /** Behind an item: a gap, then a comma with more, or the closing bracket. */
  lemma SeparatorRead(after: Gap, close: char, comma: bool, more: string, rest: string)
    requires ValidGap(after) && (close == ']' || close == '}')
    ensures var s := GapText(after) + if comma then "," + more else [close] + rest;
            EndsNumber(s) && ReadSeparator(s, close) == if comma then Ok(false, more) else Ok(true, rest)
  {
    hide GapText, SkipSpace, ValidGap;
    var t := if comma then "," + more else [close] + rest;
    GapSkipped(after, t);
    if after == [] { EmptyGap(); } else { GapStarts(after); }
    assert t[1..] == if comma then more else rest;
  }

  lemma ItemsAppend(i: Items, acc: seq<Value>)
    requires GoodItems(i)
    ensures acc + ItemsValue(i) == if i.MoreItems? then acc + [TreeValue(i.tree)] + ItemsValue(i.rest) else acc + [TreeValue(i.tree)]
  {
    hide TreeValue, Good;
  }

  lemma {:induction false} ItemsRead(i: Items, rest: string, acc: seq<Value>)
    requires GoodItems(i)
    ensures ReadItems(ItemsText(i) + "]" + rest, acc) == Ok(List(acc + ItemsValue(i)), rest)
    decreases i, 1
  {
    hide Read, ReadItems, ReadSeparator, TreeText, GapText, TreeValue, Good, ValidGap, ItemsText, ItemsValue;
    var comma := i.MoreItems?;
    var more := if comma then ItemsText(i.rest) + "]" + rest else "";
    var s := GapText(i.after) + if comma then "," + more else "]" + rest;
    SeparatorRead(i.after, ']', comma, more, rest);
    TreeRead(i.tree, s);
    ItemRegroup(i, rest);
    JsonReader.ItemsNext(TreeText(i.tree) + s, acc);
    ItemsAppend(i, acc);
    if comma { ItemsRead(i.rest, rest, acc + [TreeValue(i.tree)]); }
  }

  lemma ItemRegroup(i: Items, rest: string)
    ensures ItemsText(i) + "]" + rest ==
              TreeText(i.tree) + (GapText(i.after) + if i.MoreItems? then "," + (ItemsText(i.rest) + "]" + rest) else "]" + rest)
  {
    hide TreeText, GapText;
    var tail := match i { case OneItem(_, _) => "" case MoreItems(_, _, r) => "," + ItemsText(r) };
    assert ItemsText(i) == TreeText(i.tree) + (GapText(i.after) + tail);
    hide ItemsText;
    assert tail + "]" + rest == if i.MoreItems? then "," + (ItemsText(i.rest) + "]" + rest) else "]" + rest;
    Regroup(TreeText(i.tree), GapText(i.after) + tail, "]" + rest);
    Regroup(GapText(i.after), tail, "]" + rest);
    Regroup(ItemsText(i), "]", rest);
    Regroup(tail, "]", rest);
  }

  lemma EntryRegrouped(e: Entries, rest: string)
    ensures EntriesText(e) + "}" + rest ==
              TreeText(e.key) + (GapText(e.colon) + (":" + (TreeText(e.tree) + (GapText(e.after) +
                if e.MoreEntries? then "," + (EntriesText(e.rest) + "}" + rest) else "}" + rest))))
  {
    hide TreeText, GapText;
    var tail := match e { case OneEntry(_, _, _, _) => "" case MoreEntries(_, _, _, _, r) => "," + EntriesText(r) };
    var k, c, v, a := TreeText(e.key), GapText(e.colon), TreeText(e.tree), GapText(e.after);
    var end := "}" + rest;
    assert EntriesText(e) == k + (c + (":" + (v + (a + tail))));
    Regroup(EntriesText(e), "}", rest);
    Regroup(k, c + (":" + (v + (a + tail))), end);
    Regroup(c, ":" + (v + (a + tail)), end);
    Regroup(":", v + (a + tail), end);
    Regroup(v, a + tail, end);
    Regroup(a, tail, end);
    Regroup(tail, "}", rest);
    assert tail + "}" + rest == if e.MoreEntries? then "," + (EntriesText(e.rest) + "}" + rest) else end;
  }

  lemma EntryRead(key: Tree, colon: Gap, tree: Tree, s: string)
    requires Good(key) && key.form.Quoted? && ValidGap(colon) && Good(tree)
    requires Read(TreeText(key) + (GapText(colon) + (":" + (TreeText(tree) + s)))) == Ok(TreeValue(key), GapText(colon) + (":" + (TreeText(tree) + s)))
    requires Read(TreeText(tree) + s) == Ok(TreeValue(tree), s)
    ensures ReadEntry(TreeText(key) + (GapText(colon) + (":" + (TreeText(tree) + s)))) == Ok(Entry(TreeValue(key), TreeValue(tree)), s)
  {
    hide Read, SkipSpace, TreeText, GapText, ValidGap;
    var t := ":" + (TreeText(tree) + s);
    GapSkipped(colon, t);
    assert t[1..] == TreeText(tree) + s;
    KeyIsString(key);
  }

  lemma KeyIsString(key: Tree)
    requires Good(key) && key.form.Quoted?
    ensures TreeValue(key).Str?
  {
  }

  lemma {:induction false} EntriesRead(e: Entries, rest: string, acc: seq<Entry>)
    requires GoodEntries(e)
    ensures ReadEntries(EntriesText(e) + "}" + rest, acc) == Ok(Dict(EntriesValue(e, acc)), rest)
    decreases e, 1
  {
    hide Read, ReadEntries, ReadEntry, ReadSeparator, TreeText, GapText, TreeValue, Good, ValidGap;
    var comma := e.MoreEntries?;
    var more := if comma then EntriesText(e.rest) + "}" + rest else "";
    var s := GapText(e.after) + if comma then "," + more else "}" + rest;
    SeparatorRead(e.after, '}', comma, more, rest);
    TreeRead(e.key, GapText(e.colon) + (":" + (TreeText(e.tree) + s)));
    TreeRead(e.tree, s);
    EntryRead(e.key, e.colon, e.tree, s);
    EntryRegrouped(e, rest);
    JsonReader.EntriesNext(EntriesText(e) + "}" + rest, acc);
    if comma {
      EntriesRead(e.rest, rest, Put(acc, TreeValue(e.key), TreeValue(e.tree)));
    }
  }

  // ---------------------------------------------------------------------------
  // What the reader accepts is such a text

  /** `s` was read as the text of `t`, up to `rest`. */
  predicate Parses(s: string, t: Tree, rest: string) { Good(t) && TreeText(t) + rest == s && Follows(t, rest) }

  lemma WordFound(s: string, word: string, v: Value)
    requires ReadWord(s, word, v).Ok?
    ensures ReadWord(s, word, v).value == v && word + ReadWord(s, word, v).rest == s
  {
    if word == [] {
      assert word + s == s;
    } else {
      WordFound(s[1..], word[1..], v);
      assert s == [s[0]] + s[1..] && word == [word[0]] + word[1..];
    }
  }

  lemma ConstantFound(s: string) returns (f: Form)
    requires s != [] && Read(s).Ok? && (s[0] == 't' || s[0] == 'f' || s[0] == 'n')
    ensures GoodForm(f) && FormText(f) + Read(s).rest == s && FormValue(f) == Read(s).value && FollowsForm(f, Read(s).rest)
  {
    hide ReadWord;
    SkipNothing(s);
    if s[0] == 't' {
      WordFound(s, "true", Bool(true));
      f := Constant(Bool(true));
    } else if s[0] == 'f' {
      WordFound(s, "false", Bool(false));
      f := Constant(Bool(false));
    } else {
      WordFound(s, "null", Null);
      f := Constant(Null);
    }
  }

  lemma NumericFound(s: string) returns (f: Form)
    requires s != [] && Read(s).Ok? && (s[0] == '-' || IsDigit(s[0]))
    ensures GoodForm(f) && FormText(f) + Read(s).rest == s && FormValue(f) == Read(s).value && FollowsForm(f, Read(s).rest)
  {
    hide ReadNumber, NumText, NumValue, ValidNum;
    SkipNothing(s);
    var n := NumFound(s);
    f := Numeric(n);
  }

  lemma QuotedFound(s: string) returns (f: Form)
    requires s != [] && Read(s).Ok? && s[0] == '"'
    ensures GoodForm(f) && FormText(f) + Read(s).rest == s && FormValue(f) == Read(s).value && FollowsForm(f, Read(s).rest)
  {
    hide ReadChars, PiecesText, PiecesValue, ValidPieces;
    SkipNothing(s);
    var p := PiecesFound(s[1..], []);
    f := Quoted(p);
    assert s == "\"" + s[1..];
    assert [] + PiecesValue(p) == PiecesValue(p);
    var rest := ReadChars(s[1..], []).rest;
    assert "\"" + (PiecesText(p) + "\"" + rest) == "\"" + PiecesText(p) + "\"" + rest;
  }

  /** A successful reading starts with something solid. */
  lemma StartFound(s: string) returns (g: Gap, t: string)
    requires Read(s).Ok?
    ensures ValidGap(g) && GapText(g) + t == s && t != [] && SkipSpace(t) == Ok((), t) && Read(t) == Read(s) && |t| <= |s|
  {
    hide SkipSpace, GapText, ValidGap;
    t := SkipSpace(s).rest;
    g := GapFound(s);
    JsonReader.SkipTwice(s);
    StillSolid(s);
  }

  lemma StillSolid(s: string)
    requires SkipSpace(s).Ok?
    ensures SkipSpace(SkipSpace(s).rest) == Ok((), SkipSpace(s).rest)
  {
    SkipNothing(SkipSpace(s).rest);
  }

  lemma {:induction false} TreeFound(s: string) returns (t: Tree)
    requires Read(s).Ok?
    ensures Parses(s, t, Read(s).rest) && TreeValue(t) == Read(s).value
    decreases |s|, 2
  {
    hide Read, SkipSpace, GapText, FormText, GoodForm, FormValue, ValidGap;
    var g, u := StartFound(s);
    var f := FormFound(u);
    t := Tree(g, f);
    Regroup(GapText(g), FormText(f), Read(s).rest);
  }

  lemma FirstChars(s: string)
    requires s != [] && SkipSpace(s) == Ok((), s) && Read(s).Ok?
    ensures var c := s[0]; c == '{' || c == '[' || c == '"' || c == '-' || IsDigit(c) || c == 't' || c == 'f' || c == 'n'
  {
  }

  lemma {:induction false} FormFound(s: string) returns (f: Form)
    requires s != [] && SkipSpace(s) == Ok((), s) && Read(s).Ok?
    ensures GoodForm(f) && FormText(f) + Read(s).rest == s && FormValue(f) == Read(s).value && FollowsForm(f, Read(s).rest)
    decreases |s|, 1
  {
    hide Read, SkipSpace, FormText, GoodForm, FormValue;
    FirstChars(s);
    if s[0] == '{' {
      f := DictFound(s);
    } else if s[0] == '[' {
      f := ListFound(s);
    } else if s[0] == '"' {
      f := QuotedFound(s);
    } else if s[0] == '-' || IsDigit(s[0]) {
      f := NumericFound(s);
    } else {
      f := ConstantFound(s);
    }
  }

  lemma {:induction false} ListFound(s: string) returns (f: Form)
    requires s != [] && s[0] == '[' && Read(s).Ok?
    ensures GoodForm(f) && FormText(f) + Read(s).rest == s && FormValue(f) == Read(s).value && FollowsForm(f, Read(s).rest)
    decreases |s|, 0
  {
    hide Read, ReadItems, ItemsText, ItemsValue, GoodItems;
    JsonReader.ListStart(s);
    assert s == "[" + s[1..];
    if |s| > 1 && s[1] == ']' {
      f := EmptyList;
      assert s == "[]" + s[2..];
    } else {
      var items := ItemsFound(s[1..], []);
      f := Listed(items);
      var rest := Read(s).rest;
      assert "[" + (ItemsText(items) + "]" + rest) == "[" + ItemsText(items) + "]" + rest;
      assert [] + ItemsValue(items) == ItemsValue(items);
    }
  }

  /** The separator that ends an item, with the gap before it. */
  lemma SeparatorFound(s: string, close: char) returns (g: Gap)
    requires ReadSeparator(s, close).Ok? && close != ','
    ensures ValidGap(g)
    ensures var sep := ReadSeparator(s, close); s == GapText(g) + ((if sep.value then [close] else ",") + sep.rest)
  {
    hide SkipSpace, GapText, ValidGap;
    g := GapFound(s);
    var t := SkipSpace(s).rest;
    assert t == [t[0]] + t[1..];
  }

  lemma {:induction false} ItemsFound(s: string, acc: seq<Value>) returns (i: Items)
    requires ReadItems(s, acc).Ok?
    ensures GoodItems(i) && ItemsText(i) + "]" + ReadItems(s, acc).rest == s && ReadItems(s, acc).value == List(acc + ItemsValue(i))
    decreases |s|, 3
  {
    hide Read, ReadItems, ReadSeparator, TreeText, GapText, TreeValue, Good, ValidGap, ItemsText, ItemsValue, GoodItems;
    JsonReader.ItemsNext(s, acc);
    var x := Read(s);
    var t := TreeFound(s);
    var sep := ReadSeparator(x.rest, ']');
    var after := SeparatorFound(x.rest, ']');
    if sep.value {
      i := OneItem(t, after);
    } else {
      var more := ItemsFound(sep.rest, acc + [x.value]);
      i := MoreItems(t, after, more);
    }
    ItemsMade(i);
    ItemsAppend(i, acc);
    ItemRegroup(i, ReadItems(s, acc).rest);
  }

  lemma ItemsMade(i: Items)
    requires Good(i.tree) && ValidGap(i.after) && (i.MoreItems? ==> GoodItems(i.rest))
    ensures GoodItems(i)
  {
  }

  lemma {:induction false} DictFound(s: string) returns (f: Form)
    requires s != [] && s[0] == '{' && Read(s).Ok?
    ensures GoodForm(f) && FormText(f) + Read(s).rest == s && FormValue(f) == Read(s).value && FollowsForm(f, Read(s).rest)
    decreases |s|, 0
  {
    hide Read, ReadEntries, EntriesText, EntriesValue, GoodEntries;
    JsonReader.DictStart(s);
    assert s == "{" + s[1..];
    if |s| > 1 && s[1] == '}' {
      f := EmptyDict;
      assert s == "{}" + s[2..];
    } else {
      var entries := EntriesFound(s[1..], []);
      f := Paired(entries);
      var rest := Read(s).rest;
      assert "{" + (EntriesText(entries) + "}" + rest) == "{" + EntriesText(entries) + "}" + rest;
    }
  }

  /** A key and its value. */
  lemma {:induction false} EntryFound(s: string) returns (key: Tree, colon: Gap, tree: Tree)
    requires ReadEntry(s).Ok?
    ensures Good(key) && key.form.Quoted? && ValidGap(colon) && Good(tree)
    ensures ReadEntry(s).value == Entry(TreeValue(key), TreeValue(tree))
    ensures s == TreeText(key) + (GapText(colon) + (":" + (TreeText(tree) + ReadEntry(s).rest)))
    decreases |s|, 3
  {
    hide Read, TreeText, GapText, Good, ValidGap, SkipSpace, TreeValue;
    key := TreeFound(s);
    StringIsQuoted(key);
    var u := Read(s).rest;
    colon := GapFound(u);
    var w := SkipSpace(u).rest;
    assert w == ":" + w[1..];
    tree := TreeFound(w[1..]);
  }

  lemma StringIsQuoted(key: Tree)
    requires Good(key) && TreeValue(key).Str?
    ensures key.form.Quoted?
  {
    match key.form
    case Numeric(n) => NumIsNoString(n);
    case Constant(v) =>
    case Quoted(p) =>
    case EmptyList =>
    case Listed(items) =>
    case EmptyDict =>
    case Paired(entries) =>
  }

  lemma NumIsNoString(n: Num)
    requires ValidNum(n)
    ensures !NumValue(n).Str?
  {
  }

  lemma {:induction false} EntriesFound(s: string, acc: seq<Entry>) returns (e: Entries)
    requires ReadEntries(s, acc).Ok?
    ensures GoodEntries(e) && EntriesText(e) + "}" + ReadEntries(s, acc).rest == s && ReadEntries(s, acc).value == Dict(EntriesValue(e, acc))
    decreases |s|, 4
  {
    hide Read, ReadEntries, ReadEntry, ReadSeparator, TreeText, GapText, TreeValue, Good, ValidGap, EntriesText, EntriesValue, GoodEntries;
    JsonReader.EntriesNext(s, acc);
    var x := ReadEntry(s);
    var key, colon, tree := EntryFound(s);
    var sep := ReadSeparator(x.rest, '}');
    var after := SeparatorFound(x.rest, '}');
    var acc' := Put(acc, TreeValue(key), TreeValue(tree));
    if sep.value {
      e := OneEntry(key, colon, tree, after);
    } else {
      var more := EntriesFound(sep.rest, acc');
      e := MoreEntries(key, colon, tree, after, more);
    }
    EntriesMade(e, acc);
    EntryRegrouped(e, ReadEntries(s, acc).rest);
  }

  lemma EntriesMade(e: Entries, acc: seq<Entry>)
    requires Good(e.key) && e.key.form.Quoted? && ValidGap(e.colon) && Good(e.tree) && ValidGap(e.after) && (e.MoreEntries? ==> GoodEntries(e.rest))
    ensures GoodEntries(e)
    ensures EntriesValue(e, acc) ==
              var acc' := Put(acc, TreeValue(e.key), TreeValue(e.tree)); if e.MoreEntries? then EntriesValue(e.rest, acc') else acc'
  {
    hide Good, TreeValue, ValidGap;
  }

  // ---------------------------------------------------------------------------
  // The language of the reader

  /**
   The reader returns a value and leaves a rest exactly when the input is the text
   of a tree with that value, followed by that rest, which does not continue it.
   */
  lemma ReaderExactly(s: string, v: Value, rest: string)
    ensures Read(s) == Ok(v, rest) <==> exists t :: Parses(s, t, rest) && TreeValue(t) == v
  {
    hide Read, TreeText, TreeValue, Good, Follows;
    if Read(s) == Ok(v, rest) {
      var t := TreeFound(s);
    }
    if t :| Parses(s, t, rest) && TreeValue(t) == v {
      TreeRead(t, rest);
    }
  }

  /** A numeral with a sign or none and a fraction or none. */
  function Plainly(negative: bool, whole: string, dot: bool, fraction: string): Numeral {
    Numeral(if negative then "-" else "", whole, dot, fraction)
  }

  /** The number written by the digits `a`, a dot and the digits `b`. */
  function FractionValue(negative: bool, a: string, b: string): real
    requires AllDigits(a) && AllDigits(b)
  {
    var x := Natural(a + b) as real / Tens(|b|);
    if negative then -x else x
  }

  /** The digits `a`, a dot and the digits `b` are read as the number they write; an exponent multiplies it by a power of ten. */
  lemma FractionRead(negative: bool, a: string, b: string, n: int, rest: string)
    requires AllDigits(a) && a != [] && AllDigits(b) && EndsNumber(rest)
    ensures var sign := if negative then "-" else "";
            var x := FractionValue(negative, a, b);
            && Read(sign + (a + "." + b) + rest) == Ok(Float(x), rest)
            && Read(sign + (a + "." + b) + ("e" + IntText(n)) + rest) == Ok(Float(Shifted(x, n)), rest)
  {
    hide Read, NumeralText, ValidNumeral, IntNumeral, NumeralReal, IntText, NumeralInt, Plainly, Shifted, FractionValue;
    var m, e := Plainly(negative, a, true, b), IntNumeral(n);
    PlainlyText(negative, a, b);
    IntNumeralIs(n);
    RealOf(negative, a, b);
    NumericRead(Num(m, NoExponent), rest);
    NumericRead(Num(m, Exponent(e)), rest);
    assert NumText(Num(m, NoExponent)) == NumeralText(m);
    assert NumText(Num(m, Exponent(e))) == NumeralText(m) + ("e" + IntText(n));
    assert NumValue(Num(m, Exponent(e))) == Float(Shifted(NumeralReal(m), n));
  }

  /** Moving the point by one more place is multiplying by ten, in both directions. */
  lemma ShiftedByTen(x: real, n: int)
    ensures Shifted(x, 0) == x && Shifted(x, n + 1) == 10.0 * Shifted(x, n)
  {
    if n < 0 {
      TenTimes(-n - 1);
      assert Power10(n + 1) == 10.0 * Power10(n);
    }
    Associative(x, Power10(n));
  }

  lemma TenTimes(k: nat)
    ensures 1.0 / Tens(k) == 10.0 * (1.0 / Tens(k + 1))
  {
  }

  lemma Associative(x: real, y: real)
    ensures x * (10.0 * y) == 10.0 * (x * y)
  {
  }

  /** With its point moved behind its last digit, a fraction is the integer of its digits. */
  lemma FractionMeans(negative: bool, a: string, b: string)
    requires AllDigits(a) && AllDigits(b)
    ensures Shifted(FractionValue(negative, a, b), |b|) == (if negative then -(Natural(a + b) as real) else Natural(a + b) as real)
  {
    hide Natural;
    Divided(Natural(a + b) as real, Tens(|b|));
  }

  lemma Divided(x: real, t: real)
    requires t > 0.0
    ensures (x / t) * t == x && (-(x / t)) * t == -x
  {
  }

  lemma PlainlyText(negative: bool, a: string, b: string)
    requires AllDigits(a) && a != [] && AllDigits(b)
    ensures var m := Plainly(negative, a, true, b);
            ValidNumeral(m) && m.dot && (m.sign == [] || m.sign == "-") && NumeralText(m) == (if negative then "-" else "") + (a + "." + b)
  {
  }

  lemma RealOf(negative: bool, a: string, b: string)
    requires AllDigits(a) && a != [] && AllDigits(b) && ValidNumeral(Plainly(negative, a, true, b))
    ensures NumeralReal(Plainly(negative, a, true, b)) == FractionValue(negative, a, b)
  {
    hide Natural, Tens;
    var m := Plainly(negative, a, true, b);
    assert SignOf(m) as real == if negative then -1.0 else 1.0;
  }

  /** The numeral of an integer. */
  function IntNumeral(n: int): Numeral { Plainly(n < 0, Digits(if n < 0 then -n else n), false, "") }

  lemma IntNumeralIs(n: int)
    ensures var e := IntNumeral(n); ValidNumeral(e) && NumeralText(e) == IntText(n) && !e.dot && NumeralInt(e) == n
  {
    var k: nat := if n < 0 then -n else n;
    NaturalDigits(k);
    var e := IntNumeral(n);
    assert Body(e) == Digits(k);
    assert NumeralText(e) == IntText(n);
  }

  /** The value of a key, the last one if it is there more than once. */
  ghost predicate Maps(entries: seq<Entry>, k: Value, v: Value) {
    exists i :: 0 <= i < |entries| && entries[i] == Entry(k, v)
  }

  ghost predicate DistinctKeys(entries: seq<Entry>) {
    forall i, j :: 0 <= i < j < |entries| ==> entries[i].key != entries[j].key
  }

  /** Assignment to a dictionary: the key gets the value, every other key keeps its own, and keys stay distinct. */
  lemma {:induction false} PutAssigns(entries: seq<Entry>, k: Value, v: Value, k': Value, v': Value)
    requires DistinctKeys(entries)
    ensures DistinctKeys(Put(entries, k, v))
    ensures Maps(Put(entries, k, v), k', v') <==> if k' == k then v' == v else Maps(entries, k', v')
  {
    if entries == [] {
      assert Put(entries, k, v)[0] == Entry(k, v);
    } else if entries[0].key == k {
      PutFirst(entries, k, v, k', v');
    } else {
      PutAssigns(entries[1..], k, v, k', v');
      PutLater(entries, k, v, k', v');
    }
  }

  lemma PutFirst(entries: seq<Entry>, k: Value, v: Value, k': Value, v': Value)
    requires DistinctKeys(entries) && entries != [] && entries[0].key == k
    ensures var p := [Entry(k, v)] + entries[1..]; DistinctKeys(p) && (Maps(p, k', v') <==> if k' == k then v' == v else Maps(entries, k', v'))
  {
    var p := [Entry(k, v)] + entries[1..];
    assert forall i :: 1 <= i < |p| ==> p[i] == entries[i];
    assert p[0] == Entry(k, v);
  }

  lemma MapsCons(e: Entry, entries: seq<Entry>, k: Value, v: Value)
    ensures Maps([e] + entries, k, v) <==> e == Entry(k, v) || Maps(entries, k, v)
  {
    var s := [e] + entries;
    assert s[0] == e && forall i :: 1 <= i < |s| ==> s[i] == entries[i - 1];
    if Maps(entries, k, v) {
      var i :| 0 <= i < |entries| && entries[i] == Entry(k, v);
      assert s[i + 1] == Entry(k, v);
    }
  }

  lemma {:induction false} PutKeys(entries: seq<Entry>, k: Value, v: Value, i: nat)
    requires i < |Put(entries, k, v)|
    ensures Put(entries, k, v)[i].key == k || exists j :: 0 <= j < |entries| && entries[j].key == Put(entries, k, v)[i].key
  {
    if entries != [] && entries[0].key != k {
      if i > 0 {
        PutKeys(entries[1..], k, v, i - 1);
        var x := Put(entries, k, v)[i].key;
        assert x == Put(entries[1..], k, v)[i - 1].key;
        if x != k {
          var j :| 0 <= j < |entries[1..]| && entries[1..][j].key == x;
          assert entries[j + 1].key == x;
        }
      } else {
        assert entries[0].key == Put(entries, k, v)[0].key;
      }
    } else if entries != [] && i > 0 {
      assert entries[i].key == Put(entries, k, v)[i].key;
    }
  }

  lemma PutLater(entries: seq<Entry>, k: Value, v: Value, k': Value, v': Value)
    requires DistinctKeys(entries) && entries != [] && entries[0].key != k && DistinctKeys(Put(entries[1..], k, v))
    requires Maps(Put(entries[1..], k, v), k', v') <==> if k' == k then v' == v else Maps(entries[1..], k', v')
    ensures DistinctKeys(Put(entries, k, v)) && (Maps(Put(entries, k, v), k', v') <==> if k' == k then v' == v else Maps(entries, k', v'))
  {
    hide Put, Maps;
    PutUnfold(entries, k, v);
    var e, more := entries[0], Put(entries[1..], k, v);
    MapsCons(e, more, k', v');
    MapsCons(e, entries[1..], k', v');
    assert entries == [e] + entries[1..];
    var p := [e] + more;
    forall i, j | 0 <= i < j < |p| ensures p[i].key != p[j].key {
      if i > 0 {
        assert more[i - 1].key != more[j - 1].key;
      } else {
        PutKeys(entries[1..], k, v, j - 1);
      }
    }
  }

  lemma PutUnfold(entries: seq<Entry>, k: Value, v: Value)
    requires entries != [] && entries[0].key != k
    ensures Put(entries, k, v) == [entries[0]] + Put(entries[1..], k, v)
  {
  }

  // ---------------------------------------------------------------------------
  // How it fails

  lemma StringFails(s: string, e: Error)
    requires ReadChars(s, []) == Err(e)
    ensures Read("\"" + s) == Err(e)
  {
    hide ReadChars;
    var all := "\"" + s;
    assert all[0] == '"' && all[1..] == s;
    SkipNothing(all);
  }

  /**
   A string that is not closed is malformed, and one with a wide escape cannot be
   stored; a list that stops behind an item has run out of input.
   */
  lemma FailsOn(p: seq<Piece>, h: Piece, t: Tree, rest: string)
    requires ValidPieces(p) && h.Hex? && IsHex(h.a) && IsHex(h.b) && IsHex(h.c) && IsHex(h.d) && HexNumber(h) >= 128
    requires Good(t) && Follows(t, [])
    ensures Read("\"" + PiecesText(p)) == Err(Malformed)
    ensures Read("\"" + (PiecesText(p) + (PieceText(h) + rest))) == Err(NotAscii)
    ensures Read("[" + TreeText(t)) == Err(EndOfInput)
  {
    hide Read, PiecesText, PieceText, TreeText, IsHex, HexNumber, Good, Follows;
    OpenString(p, []);
    StringFails(PiecesText(p), Malformed);
    WideString(p, h, rest, []);
    StringFails(PiecesText(p) + (PieceText(h) + rest), NotAscii);
    ListStops(t);
  }

  lemma ListStops(t: Tree)
    requires Good(t) && Follows(t, [])
    ensures Read("[" + TreeText(t)) == Err(EndOfInput)
  {
    hide Read, TreeText, ReadItems, Good;
    TreeStarts(t);
    var s := "[" + TreeText(t);
    assert s[0] == '[' && s[1..] == TreeText(t) && s[1] == TreeText(t)[0];
    JsonReader.ListStart(s);
    TreeRead(t, []);
    assert TreeText(t) + [] == TreeText(t);
    JsonReader.ItemsNext(TreeText(t), []);
    SkipNothing([]);
  }

  /** White space and comments alone are nothing to read, and a broken comment breaks the text. */
  lemma FailsInGap(g: Gap, s: string)
    requires ValidGap(g)
    ensures Read(GapText(g)) == Err(Malformed)
    ensures SkipSpace(s).Err? ==> Read(GapText(g) + s) == Err(SkipSpace(s).error)
  {
    hide GapText, ValidGap, SkipSpace;
    GapFirst(g, s);
    GapSkipped(g, []);
    assert GapText(g) + [] == GapText(g);
  }

  /** Something that no value starts with. */
  lemma FailsAtStart(g: Gap, c: char, s: string)
    requires ValidGap(g) && !White(c) && c != '/'
    requires !(c == '{' || c == '[' || c == '"' || c == '-' || IsDigit(c) || c == 't' || c == 'f' || c == 'n')
    ensures Read(GapText(g) + ([c] + s)) == Err(Malformed)
  {
    hide GapText, ValidGap, SkipSpace;
    GapSkipped(g, [c] + s);
  }

  /** What stands behind an item of a list, behind a key, and behind a mantissa. */
  lemma FailsInList(t: Tree, g: Gap, c: char, rest: string)
    requires Good(t) && ValidGap(g) && !White(c) && c != '/' && c != ',' && c != ']' && Follows(t, GapText(g) + ([c] + rest))
    ensures Read("[" + (TreeText(t) + (GapText(g) + ([c] + rest)))) == Err(Malformed)
  {
    hide Read, TreeText, ReadItems, Good, GapText, SkipSpace, ValidGap;
    TreeStarts(t);
    var s := TreeText(t) + (GapText(g) + ([c] + rest));
    ListOpens(s);
    TreeRead(t, GapText(g) + ([c] + rest));
    JsonReader.ItemsNext(s, []);
    GapSkipped(g, [c] + rest);
  }

  lemma ListOpens(s: string)
    requires s != [] && s[0] != ']'
    ensures Read("[" + s) == ReadItems(s, [])
  {
    hide Read, ReadItems;
    var all := "[" + s;
    assert all[1] == s[0] && all[1..] == s;
    JsonReader.ListStart(all);
  }

  lemma DictOpens(s: string)
    requires s != [] && s[0] != '}'
    ensures Read("{" + s) == ReadEntries(s, [])
  {
    hide Read, ReadEntries;
    var all := "{" + s;
    assert all[1] == s[0] && all[1..] == s;
    JsonReader.DictStart(all);
  }

  /** A key that is not a string is malformed; behind a key the input may run out, or something else than a colon stand. */
  lemma FailsInDict(t: Tree, g: Gap, c: char, rest: string)
    requires Good(t) && ValidGap(g)
    ensures !t.form.Quoted? && Follows(t, rest) ==> Read("{" + (TreeText(t) + rest)) == Err(Malformed)
    ensures t.form.Quoted? ==> Read("{" + (TreeText(t) + GapText(g))) == Err(EndOfInput)
    ensures t.form.Quoted? && !White(c) && c != '/' && c != ':' ==> Read("{" + (TreeText(t) + (GapText(g) + ([c] + rest)))) == Err(Malformed)
  {
    hide Read, TreeText, ReadEntry, ReadEntries, Good, GapText, ValidGap, TreeValue;
    TreeStarts(t);
    DictOpens(TreeText(t) + rest);
    DictOpens(TreeText(t) + GapText(g));
    DictOpens(TreeText(t) + (GapText(g) + ([c] + rest)));
    JsonReader.EntriesNext(TreeText(t) + rest, []);
    JsonReader.EntriesNext(TreeText(t) + GapText(g), []);
    JsonReader.EntriesNext(TreeText(t) + (GapText(g) + ([c] + rest)), []);
    KeyFails(t, g, c, rest);
  }

  lemma KeyFails(t: Tree, g: Gap, c: char, rest: string)
    requires Good(t) && ValidGap(g)
    ensures !t.form.Quoted? && Follows(t, rest) ==> ReadEntry(TreeText(t) + rest) == Err(Malformed)
    ensures t.form.Quoted? ==> ReadEntry(TreeText(t) + GapText(g)) == Err(EndOfInput)
    ensures t.form.Quoted? && !White(c) && c != '/' && c != ':' ==> ReadEntry(TreeText(t) + (GapText(g) + ([c] + rest))) == Err(Malformed)
  {
    hide Read, TreeText, Good, GapText, ValidGap, SkipSpace, TreeValue;
    if !t.form.Quoted? && Follows(t, rest) {
      TreeRead(t, rest);
      if TreeValue(t).Str? { StringIsQuoted(t); }
    }
    if t.form.Quoted? {
      KeyIsString(t);
      TreeRead(t, GapText(g));
      TreeRead(t, GapText(g) + ([c] + rest));
      GapSkipped(g, []);
      assert GapText(g) + [] == GapText(g);
      if !White(c) && c != '/' { GapSkipped(g, [c] + rest); }
    }
  }

  /** A mantissa whose exponent is missing has run out of input. */
  lemma FailsInNumber(m: Numeral)
    requires ValidNumeral(m) && (m.sign == [] || m.sign == "-")
    ensures Read(NumeralText(m) + "e") == Err(EndOfInput)
  {
    hide NumeralText, ValidNumeral, Number;
    NumeralRun(m, "e", true);
    MantissaStarts(m);
    var s := NumeralText(m) + "e";
    assert s[0] == NumeralText(m)[0];
    assert "e"[1..] == [];
    SkipNothing(s);
  }

  lemma MantissaStarts(m: Numeral)
    requires ValidNumeral(m) && (m.sign == [] || m.sign == "-")
    ensures var s := NumeralText(m); s != [] && (s[0] == '-' || IsDigit(s[0]))
  {
    BodyParts(m);
    SignSplits(m);
  }

  /** A word cut short has run out of input; a wrong letter in it is malformed. */
  lemma {:induction false} WordFails(word: string, k: nat, s: string, v: Value)
    requires k < |word|
    ensures ReadWord(word[..k], word, v) == Err(EndOfInput)
    ensures s != [] && s[0] != word[k] ==> ReadWord(word[..k] + s, word, v) == Err(Malformed)
  {
    if k == 0 {
      assert word[..0] == [] && [] + s == s;
    } else {
      WordFails(word[1..], k - 1, s, v);
      assert word[..k][0] == word[0] && word[..k][1..] == word[1..][..k - 1];
      assert (word[..k] + s)[1..] == word[1..][..k - 1] + s;
    }
  }
}
