/** The streaming writer itself (src/json_writer.c): a comma flag, a depth and an output that every
    call appends to; and a caller that drives a value tree through it. */
module JsonWriter {
  import opened Bytes
  import opened JsonText
  import opened JsonRoundTrip

  class JsonW {
    var out: bytes
    var depth: int
    var indent: int
    var comma: bool

    constructor (indent: int)
      ensures out == [] && depth == 0 && this.indent == indent && !comma
    {
      out, depth, comma := [], 0, false;
      this.indent := indent;
    }

    method WriteIndent()
      modifies this`out
      ensures out == old(out) + Indent(depth, indent)
    {
      if indent <= 0 {
        Concat(out, [], []);
        return;
      }
      ghost var start := out;
      out := out + [NEWLINE];
      Concat(start, [NEWLINE], []);
      var i, n := 0, depth * indent;
      while i < n
        invariant 0 <= i && (i <= n || i == 0)
        invariant out == start + ([NEWLINE] + Spaces(i))
        invariant depth == old(depth) && indent == old(indent)
      {
        Concat(start, [NEWLINE] + Spaces(i), [SPACE]);
        Concat([NEWLINE], Spaces(i), [SPACE]);
        out := out + [SPACE];
        i := i + 1;
      }
      assert Spaces(i) == Spaces(n);
    }

    /** The comma and the line break that every call begins with. */
    method Begin()
      modifies this`out, this`comma
      ensures out == old(out) + Lead(old(comma), depth, indent) && comma
    {
      hide Indent;
      Concat(out, [COMMA], Indent(depth, indent));
      Concat([], Indent(depth, indent), []);
      if comma { out := out + [COMMA]; }
      comma := true;
      WriteIndent();
    }

    method Put(s: bytes)
      modifies this`out
      ensures out == old(out) + s
    {
      out := out + s;
    }

    method WriteEscaped(s: Option<bytes>)
      modifies this`out
      ensures out == old(out) + Escaped(s, [])
    {
      Concat(NULL, [], []);
      if s.None? {
        Put(NULL);
        return;
      }
      ghost var goal := out + Escaped(s, []);
      Concat([QUOTE], [], []);
      Concat(out, [QUOTE], EscapedChars(s.value, [QUOTE]));
      Put([QUOTE]);
      var i := 0;
      assert s.value[0..] == s.value;
      while i < |s.value|
        invariant 0 <= i <= |s.value|
        invariant out + EscapedChars(s.value[i..], [QUOTE]) == goal
        invariant depth == old(depth) && indent == old(indent) && comma == old(comma)
      {
        var c := s.value[i];
        assert s.value[i..][1..] == s.value[i + 1..];
        Concat(out, EscapedChar(c), EscapedChars(s.value[i + 1..], [QUOTE]));
        hide EscapedChar;
        Put(EscapedChar(c));
        i := i + 1;
      }
      Put([QUOTE]);
    }

    // ---- the calls ----

    method ObjBegin()
      modifies this
      ensures out == old(out) + (Lead(old(comma), old(depth), indent) + [LBRACE])
      ensures !comma && depth == old(depth) + 1 && indent == old(indent)
    {
      Concat(out, Lead(comma, depth, indent), [LBRACE]);
      Begin();
      Put([LBRACE]);
      comma, depth := false, depth + 1;
    }

    method ObjEnd()
      modifies this
      ensures out == old(out) + (Indent(depth, indent) + [RBRACE])
      ensures comma && depth == old(depth) - 1 && indent == old(indent)
    {
      depth := depth - 1;
      Concat(out, Indent(depth, indent), [RBRACE]);
      WriteIndent();
      Put([RBRACE]);
      comma := true;
    }

    method ArrBegin()
      modifies this
      ensures out == old(out) + (Lead(old(comma), old(depth), indent) + [LBRACKET])
      ensures !comma && depth == old(depth) + 1 && indent == old(indent)
    {
      Concat(out, Lead(comma, depth, indent), [LBRACKET]);
      Begin();
      Put([LBRACKET]);
      comma, depth := false, depth + 1;
    }

    method ArrEnd()
      modifies this
      ensures out == old(out) + (Indent(depth, indent) + [RBRACKET])
      ensures comma && depth == old(depth) - 1 && indent == old(indent)
    {
      depth := depth - 1;
      Concat(out, Indent(depth, indent), [RBRACKET]);
      WriteIndent();
      Put([RBRACKET]);
      comma := true;
    }

    method Key(key: Option<bytes>)
      modifies this`out, this`comma
      ensures out == old(out) + (Lead(old(comma), depth, indent) + (Escaped(key, []) + [COLON, SPACE]))
      ensures !comma
    {
      Concat(out, Lead(comma, depth, indent), Escaped(key, []) + [COLON, SPACE]);
      Concat(out + Lead(comma, depth, indent), Escaped(key, []), [COLON, SPACE]);
      Begin();
      WriteEscaped(key);
      Put([COLON, SPACE]);
      comma := false;
    }

    /** One call for a value that is not a container. */
    method Scalar(v: Value)
      requires !v.Obj? && !v.Arr?
      modifies this`out, this`comma
      ensures out == old(out) + Text(v, old(comma), depth, indent, [])
      ensures comma
    {
      Concat(out, Lead(comma, depth, indent), Bare(v, depth, indent, []));
      Begin();
      match v {
        case Str(s) => WriteEscaped(s);
        case Int(n) =>
          Concat(IntText(n), [], []);
          Put(IntText(n));
        case Flt(f) =>
          Concat(FloatText(f), [], []);
          Put(FloatText(f));
        case Bool(b) =>
          Concat(if b then TRUE else FALSE, [], []);
          Put(if b then TRUE else FALSE);
        case Null =>
          Concat(NULL, [], []);
          Put(NULL);
      }
    }

    method KVec3(key: Option<bytes>, x: Float, y: Float, z: Float)
      modifies this`out, this`comma
      ensures out == old(out) + (Lead(old(comma), depth, indent) + (Escaped(key, []) + [COLON, SPACE])) + TripleText(x, y, z, [])
      ensures comma
    {
      Key(key);
      Put(TripleText(x, y, z, []));
      comma := true;
    }

    // ---- driving a tree ----

    method WriteValue(v: Value)
      modifies this
      ensures forall tail :: out + tail == old(out) + Text(v, old(comma), depth, indent, tail)
      ensures comma && depth == old(depth) && indent == old(indent)
      decreases v, 1
    {
      hide Lead;
      hide Indent;
      hide Escaped;
      hide IntText;
      hide FloatText;
      ghost var before, c, d := out, comma, depth;
      match v {
        case Obj(members) =>
          ObjBegin();
          ghost var start := out;
          WriteMembers(members);
          ghost var inner := out;
          ObjEnd();
          forall tail ensures out + tail == before + Text(v, c, d, indent, tail) {
            ContainerText(before, start, inner, out, Lead(c, d, indent), LBRACE, Indent(d, indent), RBRACE, tail,
                          MembersText(members, false, d + 1, indent, Indent(d, indent) + ([RBRACE] + tail)));
          }
        case Arr(items) =>
          ArrBegin();
          ghost var start := out;
          WriteItems(items);
          ghost var inner := out;
          ArrEnd();
          forall tail ensures out + tail == before + Text(v, c, d, indent, tail) {
            ContainerText(before, start, inner, out, Lead(c, d, indent), LBRACKET, Indent(d, indent), RBRACKET, tail,
                          ItemsText(items, false, d + 1, indent, Indent(d, indent) + ([RBRACKET] + tail)));
          }
        case _ =>
          Scalar(v);
          forall tail ensures out + tail == before + Text(v, c, d, indent, tail) { ScalarTail(v, c, d, indent, before, tail); }
      }
    }

    method WriteItems(items: Items)
      modifies this
      ensures forall tail :: out + tail == old(out) + ItemsText(items, old(comma), depth, indent, tail)
      ensures comma == (old(comma) || items.Item?) && depth == old(depth) && indent == old(indent)
      decreases items, 2
    {
      if items.Item? {
        ghost var before, c := out, comma;
        WriteValue(items.v);
        ghost var mid := out;
        WriteItems(items.rest);
        forall tail ensures out + tail == before + ItemsText(items, c, depth, indent, tail) {
          assert mid + ItemsText(items.rest, true, depth, indent, tail) == out + tail;
        }
      }
    }

    method WriteMembers(members: Members)
      modifies this
      ensures forall tail :: out + tail == old(out) + MembersText(members, old(comma), depth, indent, tail)
      ensures comma == (old(comma) || !members.NoMembers?) && depth == old(depth) && indent == old(indent)
      decreases members, 2
    {
      ghost var before, c, d := out, comma, depth;
      match members {
        case NoMembers =>
        case Pair(key, v, rest) =>
          Key(key);
          ghost var keyed := out;
          WriteValue(v);
          ghost var mid := out;
          WriteMembers(rest);
          forall tail ensures out + tail == before + MembersText(members, c, d, indent, tail) {
            var more := MembersText(rest, true, d, indent, tail);
            assert mid + more == keyed + Text(v, false, d, indent, more);
            KeyTail(before, keyed, Lead(c, d, indent), key, Text(v, false, d, indent, more));
          }
        case Triple(key, x, y, z, rest) =>
          KVec3(key, x, y, z);
          ghost var mid := out;
          WriteMembers(rest);
          forall tail ensures out + tail == before + MembersText(members, c, d, indent, tail) {
            var more := MembersText(rest, true, d, indent, tail);
            var keyed := before + (Lead(c, d, indent) + (Escaped(key, []) + [COLON, SPACE]));
            Concat(keyed, TripleText(x, y, z, []), more);
            TripleTail(x, y, z, more);
            KeyTail(before, keyed, Lead(c, d, indent), key, TripleText(x, y, z, more));
          }
      }
    }
  }

  /** An opening and a closing bracket around what was written between. */
  lemma ContainerText(before: bytes, start: bytes, inner: bytes, after: bytes, lead: bytes, open: byte,
                      indentation: bytes, close: byte, tail: bytes, body: bytes)
    requires start == before + (lead + [open])
    requires after == inner + (indentation + [close])
    requires inner + (indentation + ([close] + tail)) == start + body
    ensures after + tail == before + (lead + ([open] + body))
  {
    Concat(inner, indentation + [close], tail);
    Concat(indentation, [close], tail);
    Concat(before, lead + [open], body);
    Concat(lead, [open], body);
  }

  lemma {:induction false} CharsTail(s: bytes, mid: bytes, tail: bytes)
    ensures EscapedChars(s, mid) + tail == EscapedChars(s, mid + tail)
    decreases |s|
  {
    hide EscapedChar;
    if |s| > 0 {
      CharsTail(s[1..], mid, tail);
      Concat(EscapedChar(s[0]), EscapedChars(s[1..], mid), tail);
    }
  }

  lemma EscapedTail(s: Option<bytes>, tail: bytes)
    ensures Escaped(s, []) + tail == Escaped(s, tail)
  {
    if s.None? {
      Concat(NULL, [], tail);
    } else {
      Concat([QUOTE], [], tail);
      Concat([QUOTE], EscapedChars(s.value, [QUOTE]), tail);
      CharsTail(s.value, [QUOTE], tail);
    }
  }

  lemma KeyTail(before: bytes, keyed: bytes, lead: bytes, key: Option<bytes>, x: bytes)
    requires keyed == before + (lead + (Escaped(key, []) + [COLON, SPACE]))
    ensures keyed + x == before + (lead + KeyText(key, x))
  {
    Concat(before, lead + (Escaped(key, []) + [COLON, SPACE]), x);
    Concat(lead, Escaped(key, []) + [COLON, SPACE], x);
    Concat(Escaped(key, []), [COLON, SPACE], x);
    EscapedTail(key, [COLON, SPACE] + x);
  }

  lemma TripleTail(x: Float, y: Float, z: Float, tail: bytes)
    ensures TripleText(x, y, z, []) + tail == TripleText(x, y, z, tail)
  {
    hide FloatText;
    var close := [RBRACKET] + [];
    Concat([RBRACKET], [], tail);
    Concat(FloatText(z), close, tail);
    Concat([COMMA, SPACE], FloatText(z) + close, tail);
    Concat(FloatText(y), [COMMA, SPACE] + (FloatText(z) + close), tail);
    Concat([COMMA, SPACE], FloatText(y) + ([COMMA, SPACE] + (FloatText(z) + close)), tail);
    Concat(FloatText(x), [COMMA, SPACE] + (FloatText(y) + ([COMMA, SPACE] + (FloatText(z) + close))), tail);
    Concat([LBRACKET], FloatText(x) + ([COMMA, SPACE] + (FloatText(y) + ([COMMA, SPACE] + (FloatText(z) + close)))), tail);
  }

  lemma ScalarTail(v: Value, comma: bool, depth: int, indent: int, before: bytes, tail: bytes)
    requires !v.Obj? && !v.Arr?
    ensures before + Text(v, comma, depth, indent, []) + tail == before + Text(v, comma, depth, indent, tail)
  {
    var lead := Lead(comma, depth, indent);
    Concat(before, Text(v, comma, depth, indent, []), tail);
    Concat(lead, Bare(v, depth, indent, []), tail);
    match v
    case Str(s) => EscapedTail(s, tail);
    case Int(n) => Concat(IntText(n), [], tail);
    case Flt(f) => Concat(FloatText(f), [], tail);
    case Bool(b) => Concat(if b then TRUE else FALSE, [], tail);
    case _ => Concat(NULL, [], tail);
  }

  /** A record written from scratch: the tree's text, which parses back to the tree. */
  method WriteDocument(v: Value, indent: int) returns (text: bytes)
    ensures text == Text(v, false, 0, indent, [])
    ensures Parse(text) == if Clean(v) then Some(Seen(v)) else None
    ensures indent <= 0 ==> OneLine(text)
  {
    var w := new JsonW(indent);
    w.WriteValue(v);
    text := w.out;
    assert text + [] == [] + Text(v, false, 0, indent, []);
    Concat(text, [], []);
    Concat(Text(v, false, 0, indent, []), [], []);
    JsonRoundTrips(v, indent);
    if indent <= 0 { CompactIsOneLine(v, indent); }
  }
}
