/**
 `JsonWriter` (tools/localjson.py) as the source has it: a buffer that the
 methods append to. The result can be read back.
 */
module JsonWriter {
  import opened Json

  class Writer {
    const slash: bool // `_escaped_forward_slash`
    var results: string

    constructor (escapedForwardSlash: bool)
      ensures slash == escapedForwardSlash && results == ""
    {
      slash, results := escapedForwardSlash, "";
    }

    method Append(s: string)
      modifies this
      ensures results == old(results) + s
    {
      results := results + s;
    }

    /** `_write`. */
    method WriteValue(v: Value)
      requires Plain(v)
      modifies this
      ensures results == old(results) + Write(v, slash)
      decreases v, 1
    {
      match v
      case Null => Append("null");
      case Bool(b) => Append(if b then "true" else "false");
      case Int(i) => Append(IntText(i));
      case Str(s) => WriteString(s);
      case List(_) => WriteList(v);
      case Dict(_) => WriteDict(v);
    }

    method WriteString(s: string)
      modifies this
      ensures results == old(results) + Write(Str(s), slash)
    {
      Append("\"");
      var t := Replace(s, '\\', "\\\\");
      if slash {
        t := Replace(t, '/', "\\/");
      }
      t := Replace(t, '"', "\\\"");
      t := Replace(t, Backspace, "\\b");
      t := Replace(t, FormFeed, "\\f");
      t := Replace(t, '\n', "\\n");
      t := Replace(t, '\r', "\\r");
      t := Replace(t, '\t', "\\t");
      Append(t);
      Append("\"");
    }

    method WriteList(v: Value)
      requires v.List? && Plain(v)
      modifies this
      ensures results == old(results) + Write(v, slash)
      decreases v, 0
    {
      hide Write, WriteItems, Plain;
      var n := |v.items|;
      Append("[");
      for i := 0 to |v.items|
        invariant n == |v.items| - i
        invariant results + WriteItems(v, i, slash) == old(results) + "[" + WriteItems(v, 0, slash)
      {
        PlainParts(v, i);
        NextItem(results, v, i, slash);
        WriteValue(v.items[i]);
        n := n - 1;
        if n > 0 {
          Append(",");
        }
      }
      Append("]");
      WholeList(old(results), v, slash);
    }

    method WriteDict(v: Value)
      requires v.Dict? && Plain(v)
      modifies this
      ensures results == old(results) + Write(v, slash)
      decreases v, 0
    {
      hide Write, WriteEntries, Plain;
      var n := |v.entries|;
      Append("{");
      for i := 0 to |v.entries|
        invariant n == |v.entries| - i
        invariant results + WriteEntries(v, i, slash) == old(results) + "{" + WriteEntries(v, 0, slash)
      {
        PlainParts(v, i);
        NextEntry(results, v, i, slash);
        WriteValue(v.entries[i].key);
        Append(":");
        WriteValue(v.entries[i].value);
        n := n - 1;
        if n > 0 {
          Append(",");
        }
      }
      Append("}");
      WholeDict(old(results), v, slash);
    }
  }

  function Comma(more: bool): string { if more then "," else "" }

  lemma NextItem(before: string, v: Value, i: nat, slash: bool)
    requires v.List? && Plain(v) && i < |v.items|
    ensures before + WriteItems(v, i, slash)
              == before + Write(v.items[i], slash) + Comma(i + 1 < |v.items|) + WriteItems(v, i + 1, slash)
  {
    hide Write, Plain;
  }

  lemma NextEntry(before: string, v: Value, i: nat, slash: bool)
    requires v.Dict? && Plain(v) && i < |v.entries|
    ensures before + WriteEntries(v, i, slash)
              == before + Write(v.entries[i].key, slash) + ":" + Write(v.entries[i].value, slash)
                 + Comma(i + 1 < |v.entries|) + WriteEntries(v, i + 1, slash)
  {
    hide Write, Plain;
  }

  lemma WholeList(before: string, v: Value, slash: bool)
    requires v.List? && Plain(v)
    ensures WriteItems(v, |v.items|, slash) == ""
    ensures before + Write(v, slash) == before + "[" + WriteItems(v, 0, slash) + "]"
  {
  }

  lemma WholeDict(before: string, v: Value, slash: bool)
    requires v.Dict? && Plain(v)
    ensures WriteEntries(v, |v.entries|, slash) == ""
    ensures before + Write(v, slash) == before + "{" + WriteEntries(v, 0, slash) + "}"
  {
  }

  /** `write`: the text reads back as the value, exactly when all dictionary keys are strings. */
  method WriteJson(v: Value, escapedForwardSlash: bool) returns (text: string)
    requires Plain(v)
    ensures text == Write(v, escapedForwardSlash)
    ensures ReadText(text) == if StringKeys(v) then Ok(v, []) else Err(Malformed)
  {
    var writer := new Writer(escapedForwardSlash);
    writer.WriteValue(v);
    text := writer.results;
    RoundTrip(v, escapedForwardSlash);
  }
}
