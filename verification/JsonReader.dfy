/**
 `JsonReader` (tools/localjson.py) as the source has it: an index that the
 methods advance through the text. Each method is proved to consume what the
 function of module `Json` it belongs to says, and to fail as it says.
 */
module JsonReader {
  import opened Json

  datatype Option<T> = None | Some(value: T)

  /** The outcome of a method that may raise an exception. */
  datatype Result<T> = Good(value: T) | Fail(error: Error) {
    predicate IsFailure() { Fail? }
    function PropagateFailure<U>(): Result<U> requires Fail? { Fail(error) }
    function Extract(): T requires Good? { value }
  }

  class Reader {
    const text: string
    var index: int // of the character taken last; past the end once the input ran out

    constructor (s: string)
      ensures Valid() && text == s && Rest() == s
    {
      text, index := s, -1;
    }

    ghost predicate Valid() reads this { index >= -1 }

    /** The input that is left. */
    ghost function Rest(): string
      reads this
      requires Valid()
    {
      if index + 1 < |text| then text[index + 1..] else []
    }

    /** The method did what `p` says: it returned the value and left the rest, or it failed. */
    ghost predicate Did<T(!new)>(p: Parse<T>, r: Result<T>)
      reads this
    {
      Valid() && match p { case Ok(v, rest) => r == Good(v) && Rest() == rest case Err(e) => r == Fail(e) }
    }

    function Peek(): (c: Option<char>)
      reads this
      requires Valid()
      ensures c == if Rest() == [] then None else Some(Rest()[0])
    {
      if index + 1 < |text| then Some(text[index + 1]) else None
    }

    method Next() returns (r: Result<char>)
      requires Valid()
      modifies this
      ensures Valid()
      ensures old(Rest()) == [] ==> r == Fail(EndOfInput) && Rest() == []
      ensures old(Rest()) != [] ==> r == Good(old(Rest())[0]) && Rest() == old(Rest())[1..]
      ensures r.Good? ==> 0 <= index < |text| && text[index] == r.value
    {
      index := index + 1;
      if index < |text| { return Good(text[index]); }
      return Fail(EndOfInput);
    }

    method PutBack()
      requires 0 <= index < |text|
      modifies this
      ensures Valid() && Rest() == [text[old(index)]] + old(Rest())
    {
      index := index - 1;
    }

    method ReadLineComment()
      requires Valid()
      modifies this
      ensures Valid() && Rest() == SkipLine(old(Rest()))
    {
      var ch := Next();
      while ch.Good? && ch.value != '\r' && ch.value != '\n'
        invariant Valid() && (ch.Fail? ==> Rest() == [])
        invariant ch.Fail? || ch.value == '\r' || ch.value == '\n' ==> SkipLine(old(Rest())) == Rest()
        invariant ch.Good? && ch.value != '\r' && ch.value != '\n' ==> SkipLine(old(Rest())) == SkipLine(Rest())
        decreases |Rest()|, ch.Good?
      {
        ch := Next();
      }
    }

    method ReadBlockComment() returns (r: Result<()>)
      requires Valid()
      modifies this
      ensures Did(SkipBlock(old(Rest())), r)
    {
      var done := false;
      while !done
        invariant Valid()
        invariant !done ==> SkipBlock(old(Rest())) == SkipBlock(Rest())
        invariant done ==> Rest() != [] && SkipBlock(old(Rest())) == Ok((), Rest()[1..])
        decreases |Rest()|, !done
      {
        var ch := Next();
        if ch.Fail? { return Fail(Malformed); }
        done := ch.value == '*' && Peek() == Some('/');
        if !done && ch.value == '/' && Peek() == Some('*') { return Fail(Malformed); }
      }
      var _ := Next();
      return Good(());
    }

    method ReadComment() returns (r: Result<()>)
      requires Valid() && Rest() != [] && Rest()[0] == '/'
      modifies this
      ensures Did(SkipComment(old(Rest())), r)
    {
      var first := Next();
      assert first == Good('/');
      var second :- Next();
      if second == '/' {
        ReadLineComment();
        return Good(());
      } else if second == '*' {
        r := ReadBlockComment();
      } else {
        return Fail(Malformed);
      }
    }

    method EatWhitespace() returns (r: Result<()>)
      requires Valid()
      modifies this
      ensures Did(SkipSpace(old(Rest())), r)
    {
      var p := Peek();
      while p.Some? && (IsSpace(p.value) || p.value == '/')
        invariant Valid() && p == Peek()
        invariant SkipSpace(old(Rest())) == SkipSpace(Rest())
        decreases |Rest()|
      {
        if p.value == '/' {
          var _ :- ReadComment();
        } else {
          var _ := Next();
        }
        p := Peek();
      }
      return Good(());
    }

    method AssertNext(ch: char) returns (r: Result<()>)
      requires Valid()
      modifies this
      ensures Valid()
      ensures old(Rest()) == [] ==> r == Fail(EndOfInput)
      ensures old(Rest()) != [] && old(Rest())[0] != ch ==> r == Fail(Malformed)
      ensures old(Rest()) != [] && old(Rest())[0] == ch ==> r == Good(()) && Rest() == old(Rest())[1..]
    {
      var c :- Next();
      return if c == ch then Good(()) else Fail(Malformed);
    }

    /** `_readTrue`, `_readFalse` and `_readNull`: the letters of `word`, one after the other. */
    method ReadConstantWord(word: string, v: Value) returns (r: Result<Value>)
      requires Valid()
      modifies this
      ensures Did(ReadWord(old(Rest()), word, v), r)
    {
      for i := 0 to |word|
        invariant Valid()
        invariant ReadWord(old(Rest()), word, v) == ReadWord(Rest(), word[i..], v)
      {
        var _ :- AssertNext(word[i]);
      }
      return Good(v);
    }

    method ReadNumeral(allowExp: bool) returns (r: Result<Value>)
      requires Valid()
      modifies this
      ensures Did(ReadNumber(old(Rest()), allowExp), r)
      decreases allowExp
    {
      hide ReadNumber, ReadDigits, Rest, FloatText, Integer, Decimal, Raised;
      NumberStart(Rest(), allowExp);
      var float, exponent := false, Int(0);
      var first :- Next();
      var result := [first];
      ghost var broken := false;
      var peek := Peek();
      while peek.Some? && (IsDigit(peek.value) || peek.value == '.' || (allowExp && peek.value == 'e'))
        invariant Valid() && peek == Peek()
        invariant result != [] && (float || forall k :: 1 <= k < |result| ==> IsDigit(result[k]))
        invariant !broken && exponent == Int(0) && ReadNumber(old(Rest()), allowExp) == ReadDigits(Rest(), allowExp, result, float)
        decreases |Rest()|
      {
        DigitsNext(Rest(), allowExp, result, float);
        float := float || peek.value == '.' || peek.value == 'e';
        if peek.value == 'e' {
          var _ := Next();
          exponent :- ReadNumeral(false);
          broken := true;
          break;
        }
        var c := Next();
        result := result + [c.value];
        peek := Peek();
      }
      if !broken { DigitsEnd(Rest(), allowExp, result, float); }
      if float {
        return if FloatText(result) then Good(Raised(Decimal(result), exponent)) else Fail(Malformed);
      } else {
        var n := Integer(result);
        return if n.Ok? then Good(n.value) else Fail(n.error);
      }
    }

    /** The four digits after `\u`; running out of input inside a string is a malformed string. */
    method ReadHexChar() returns (r: Result<char>)
      requires Valid()
      modifies this
      ensures Did(ReadHex(old(Rest())), r)
    {
      hide HexChar;
      var ch4096 := Next();
      if ch4096.Fail? { return Fail(Malformed); }
      var ch256 := Next();
      if ch256.Fail? { return Fail(Malformed); }
      var ch16 := Next();
      if ch16.Fail? { return Fail(Malformed); }
      var ch1 := Next();
      if ch1.Fail? { return Fail(Malformed); }
      var c := HexChar(ch4096.value, ch256.value, ch16.value, ch1.value);
      return if c.Ok? then Good(c.value) else Fail(c.error);
    }

    /** What a backslash stands for, with the character that follows it. */
    method ReadEscapedChar() returns (r: Result<char>)
      requires Valid()
      modifies this
      ensures Did(ReadEscape(old(Rest())), r)
    {
      var ch := Next();
      if ch.Fail? { return Fail(Malformed); }
      match ch.value
      case 'b' => return Good(Backspace);
      case 'r' => return Good('\r');
      case 'n' => return Good('\n');
      case 'f' => return Good(FormFeed);
      case 't' => return Good('\t');
      case 'u' => r := ReadHexChar();
      case c => return if c == '"' || c == '/' || c == '\\' then Good(c) else Fail(Malformed);
    }

    method ReadStringLiteral() returns (r: Result<Value>)
      requires Valid() && Rest() != [] && Rest()[0] == '"'
      modifies this
      ensures Did(ReadString(old(Rest())), r)
    {
      var open := Next();
      ghost var s := Rest();
      assert open == Good('"') && s == old(Rest())[1..];
      var result: string := [];
      while true
        invariant Valid() && ReadChars(s, []) == ReadChars(Rest(), result)
        decreases |Rest()|
      {
        var ch := Next();
        if ch.Fail? { return Fail(Malformed); }
        if ch.value == '"' {
          PutBack();
          break;
        }
        var c := ch.value;
        if c == '\\' {
          c :- ReadEscapedChar();
        }
        result := result + [c];
      }
      var close := Next();
      assert close == Good('"');
      return Good(Str(result));
    }

    method ReadArray() returns (r: Result<Value>)
      requires Valid() && Rest() != [] && Rest()[0] == '['
      modifies this
      ensures Did(Read(old(Rest())), r)
      decreases |Rest()|, 0
    {
      hide Rest, Read, ReadItems, SkipSpace;
      ghost var all := Rest();
      ListStart(all);
      var open := Next();
      assert open == Good('[');
      var result: seq<Value> := [];
      var done := Peek() == Some(']');
      while !done
        invariant Valid() && |Rest()| < |old(Rest())|
        invariant !done ==> Read(all) == ReadItems(Rest(), result)
        invariant done ==> Rest() != [] && Rest()[0] == ']' && Read(all) == Ok(List(result), Rest()[1..])
        decreases |Rest()|, !done
      {
        ItemsNext(Rest(), result);
        var item :- ReadValue();
        result := result + [item];
        var _ :- EatWhitespace();
        done := Peek() == Some(']');
        if !done {
          var ch :- Next();
          if ch != ',' { return Fail(Malformed); }
        }
      }
      var close := Next();
      assert close == Good(']');
      return Good(List(result));
    }

    method ReadObject() returns (r: Result<Value>)
      requires Valid() && Rest() != [] && Rest()[0] == '{'
      modifies this
      ensures Did(Read(old(Rest())), r)
      decreases |Rest()|, 0
    {
      hide Rest, Read, ReadEntries, ReadEntry, SkipSpace;
      ghost var all := Rest();
      DictStart(all);
      var open := Next();
      assert open == Good('{');
      var result: seq<Entry> := [];
      var done := Peek() == Some('}');
      while !done
        invariant Valid() && |Rest()| < |old(Rest())|
        invariant !done ==> Read(all) == ReadEntries(Rest(), result)
        invariant done ==> Rest() != [] && Rest()[0] == '}' && Read(all) == Ok(Dict(result), Rest()[1..])
        decreases |Rest()|, !done
      {
        EntriesNext(Rest(), result);
        var entry :- ReadKeyAndValue();
        result := Put(result, entry.key, entry.value);
        var _ :- EatWhitespace();
        done := Peek() == Some('}');
        if !done {
          var ch :- Next();
          if ch != ',' { return Fail(Malformed); }
        }
      }
      var close := Next();
      assert close == Good('}');
      return Good(Dict(result));
    }

    /** The first half of the loop body of `_readObject`. */
    method ReadKeyAndValue() returns (r: Result<Entry>)
      requires Valid()
      modifies this
      ensures Did(ReadEntry(old(Rest())), r)
      decreases |Rest()|, 2
    {
      var key :- ReadValue();
      if !key.Str? { return Fail(Malformed); }
      var _ :- EatWhitespace();
      var ch :- Next();
      if ch != ':' { return Fail(Malformed); }
      ghost var s := Rest();
      var _ :- EatWhitespace();
      SkipTwice(s);
      var val :- ReadValue();
      return Good(Entry(key, val));
    }

    /** `_read`; its test for a comment after white space is never met. */
    method ReadValue() returns (r: Result<Value>)
      requires Valid()
      modifies this
      ensures Did(Read(old(Rest())), r)
      decreases |Rest()|, 1
    {
      ghost var s := Rest();
      var _ :- EatWhitespace();
      SkipTwice(s);
      var peek := Peek();
      if peek == None {
        return Fail(Malformed);
      }
      var c := peek.value;
      if c == '{' {
        r := ReadObject();
      } else if c == '[' {
        r := ReadArray();
      } else if c == '"' {
        r := ReadStringLiteral();
      } else if c == '-' || IsDigit(c) {
        r := ReadNumeral(true);
      } else if c == 't' {
        r := ReadConstantWord("true", Bool(true));
      } else if c == 'f' {
        r := ReadConstantWord("false", Bool(false));
      } else if c == 'n' {
        r := ReadConstantWord("null", Null);
      } else {
        return Fail(Malformed);
      }
    }
  }

  // The functions of `Json`, unfolded one step along the loops of the methods.

  lemma NumberStart(s: string, allowExp: bool)
    ensures ReadNumber(s, allowExp) == if s == [] then Err(EndOfInput) else ReadDigits(s[1..], allowExp, [s[0]], false)
  {
  }

  lemma DigitsNext(s: string, allowExp: bool, text: string, float: bool)
    requires s != [] && text != [] && (float || forall k :: 1 <= k < |text| ==> IsDigit(text[k]))
    ensures allowExp && s[0] == 'e' ==>
      var x := ReadNumber(s[1..], false);
      ReadDigits(s, allowExp, text, float) == if x.Err? then x else Number(text, true, x.value, x.rest)
    ensures NumberChar(s[0]) ==>
      && ((float || s[0] == '.') || forall k :: 1 <= k < |text + [s[0]]| ==> IsDigit((text + [s[0]])[k]))
      && ReadDigits(s, allowExp, text, float) == ReadDigits(s[1..], allowExp, text + [s[0]], float || s[0] == '.')
  {
  }

  lemma DigitsEnd(s: string, allowExp: bool, text: string, float: bool)
    requires text != [] && (float || forall k :: 1 <= k < |text| ==> IsDigit(text[k]))
    requires s == [] || !(NumberChar(s[0]) || (allowExp && s[0] == 'e'))
    ensures ReadDigits(s, allowExp, text, float) == Number(text, float, Int(0), s)
  {
  }

  lemma ListStart(s: string)
    requires s != [] && s[0] == '['
    ensures Read(s) == if |s| > 1 && s[1] == ']' then Ok(List([]), s[2..]) else ReadItems(s[1..], [])
  {
    SkipNothing(s);
  }

  lemma DictStart(s: string)
    requires s != [] && s[0] == '{'
    ensures Read(s) == if |s| > 1 && s[1] == '}' then Ok(Dict([]), s[2..]) else ReadEntries(s[1..], [])
  {
    SkipNothing(s);
  }

  lemma ItemsNext(s: string, items: seq<Value>)
    ensures var x := Read(s);
      if x.Err? then ReadItems(s, items) == x
      else
        var sep := ReadSeparator(x.rest, ']');
        ReadItems(s, items) ==
          if sep.Err? then Err(sep.error)
          else if sep.value then Ok(List(items + [x.value]), sep.rest)
          else ReadItems(sep.rest, items + [x.value])
  {
  }

  lemma EntriesNext(s: string, entries: seq<Entry>)
    ensures var e := ReadEntry(s);
      if e.Err? then ReadEntries(s, entries) == Err(e.error)
      else
        var sep := ReadSeparator(e.rest, '}');
        var entries' := Put(entries, e.value.key, e.value.value);
        ReadEntries(s, entries) ==
          if sep.Err? then Err(sep.error) else if sep.value then Ok(Dict(entries'), sep.rest) else ReadEntries(sep.rest, entries')
  {
  }

  /** White space that has been skipped does not matter any more. */
  lemma SkipTwice(s: string)
    requires SkipSpace(s).Ok?
    ensures Read(SkipSpace(s).rest) == Read(s)
  {
    SkipNothing(SkipSpace(s).rest);
  }

  /** `read`. */
  method ReadJson(s: string) returns (r: Result<Value>)
    ensures match ReadText(s) { case Ok(v, _) => r == Good(v) case Err(e) => r == Fail(e) }
  {
    var reader := new Reader(s);
    r := reader.ReadValue();
  }
}
