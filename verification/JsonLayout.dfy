/** How the writer lays a tree out: the same lines for every indentation, or all on one. */
module JsonLayout {
  import opened Bytes
  import opened JsonText

  /** What is written between two line breaks, the comma before the break included. */
  datatype Line = Line(comma: bool, depth: int, kind: Kind, text: bytes)
  datatype Kind = Opens | Closes | Plain

  function LinesOf(v: Value, comma: bool, depth: int): (ls: seq<Line>)
    decreases v, 1
  {
    match v
    case Obj(members) => [Line(comma, depth, Opens, [123])] + MemberLines(members, false, depth + 1) + [Line(false, depth, Closes, [125])]
    case Arr(items) => [Line(comma, depth, Opens, [91])] + ItemLines(items, false, depth + 1) + [Line(false, depth, Closes, [93])]
    case Str(s) => [Line(comma, depth, Plain, Escaped(s, []))]
    case Int(n) => [Line(comma, depth, Plain, IntText(n))]
    case Flt(f) => [Line(comma, depth, Plain, FloatText(f))]
    case Bool(b) => [Line(comma, depth, Plain, if b then [116, 114, 117, 101] else [102, 97, 108, 115, 101])]
    case Null => [Line(comma, depth, Plain, [110, 117, 108, 108])]
  }

  function ItemLines(items: Items, comma: bool, depth: int): (ls: seq<Line>)
    decreases items, 2
  {
    match items
    case NoItems => []
    case Item(v, rest) => LinesOf(v, comma, depth) + ItemLines(rest, true, depth)
  }

  /** A key has a line of its own, ended by a colon and a space; three numbers stay on the line of theirs. */
  function MemberLines(members: Members, comma: bool, depth: int): (ls: seq<Line>)
    decreases members, 2
  {
    match members
    case NoMembers => []
    case Pair(key, v, rest) =>
      [Line(comma, depth, Plain, Escaped(key, []) + [58, 32])] + LinesOf(v, false, depth) + MemberLines(rest, true, depth)
    case Triple(key, x, y, z, rest) =>
      [Line(comma, depth, Plain,
            Escaped(key, []) + [58, 32] + [91] + FloatText(x) + [44, 32] + FloatText(y) + [44, 32] + FloatText(z) + [93])]
      + MemberLines(rest, true, depth)
  }

  /** A line break and its indentation; nothing when there is none. */
  function Break(depth: int, indent: int): (s: bytes) {
    if indent <= 0 then [] else [10] + if depth * indent <= 0 then [] else seq(depth * indent, _ => 32)
  }

  function Rendered(l: Line, indent: int): (s: bytes) {
    (if l.comma then [44] else []) + Break(l.depth, indent) + l.text
  }

  function Render(ls: seq<Line>, indent: int): (s: bytes) {
    if |ls| == 0 then [] else Rendered(ls[0], indent) + Render(ls[1..], indent)
  }

  lemma {:induction false} RenderJoin(a: seq<Line>, b: seq<Line>, indent: int)
    ensures Render(a + b, indent) == Render(a, indent) + Render(b, indent)
    decreases |a|
  {
    if |a| == 0 {
      assert a + b == b;
    } else {
      assert (a + b)[1..] == a[1..] + b;
      RenderJoin(a[1..], b, indent);
      Concat(Rendered(a[0], indent), Render(a[1..], indent), Render(b, indent));
    }
  }

  lemma {:induction false} SpacesAre(n: int)
    ensures Spaces(n) == if n <= 0 then [] else seq(n, _ => 32)
    decreases n
  {
    if n > 0 {
      SpacesAre(n - 1);
      assert seq(n, _ => 32) == (if n - 1 <= 0 then [] else seq(n - 1, _ => 32)) + [32];
    }
  }

  lemma LeadIs(comma: bool, depth: int, indent: int)
    ensures Lead(comma, depth, indent) == (if comma then [44] else []) + Break(depth, indent)
    ensures Indent(depth, indent) == Break(depth, indent)
  {
    if indent > 0 { SpacesAre(depth * indent); }
    hide Spaces;
  }

  /** A line in front of what follows. */
  lemma OneLine(l: Line, indent: int, tail: bytes)
    ensures Render([l], indent) + tail == Lead(l.comma, l.depth, indent) + (l.text + tail)
  {
    LeadIs(l.comma, l.depth, indent);
    assert [l][1..] == [];
    Concat(Rendered(l, indent), [], []);
    Concat((if l.comma then [44] else []) + Break(l.depth, indent), l.text, tail);
    hide Lead;
    hide Break;
  }

  lemma {:induction false} CharsTail(x: bytes, t: bytes, tail: bytes)
    ensures EscapedChars(x, t + tail) == EscapedChars(x, t) + tail
    decreases |x|
  {
    if |x| > 0 {
      CharsTail(x[1..], t, tail);
      Concat(EscapedChar(x[0]), EscapedChars(x[1..], t), tail);
      hide EscapedChar;
    }
  }

  lemma EscapedTail(x: Option<bytes>, tail: bytes)
    ensures Escaped(x, tail) == Escaped(x, []) + tail
  {
    if x.Some? {
      CharsTail(x.value, [QUOTE], tail);
      Concat([QUOTE], EscapedChars(x.value, [QUOTE]), tail);
      Concat([QUOTE], [], []);
      hide EscapedChars;
    } else {
      Concat(NULL, [], tail);
      Concat(NULL, [], []);
    }
  }

  /** Lines in front of lines in front of what follows. */
  lemma TwoParts(a: seq<Line>, b: seq<Line>, indent: int, tail: bytes)
    ensures Render(a + b, indent) + tail == Render(a, indent) + (Render(b, indent) + tail)
  {
    RenderJoin(a, b, indent);
    Concat(Render(a, indent), Render(b, indent), tail);
    hide Render;
  }

  /** The lines of a bracketed value. */
  lemma Bracketed(comma: bool, depth: int, indent: int, open: byte, middle: seq<Line>, close: byte, tail: bytes)
    ensures var o, c := Line(comma, depth, Opens, [open]), Line(false, depth, Closes, [close]);
            Render([o] + middle + [c], indent) + tail ==
            Lead(comma, depth, indent) + ([open] + (Render(middle, indent) + (Indent(depth, indent) + ([close] + tail))))
  {
    var o, c := Line(comma, depth, Opens, [open]), Line(false, depth, Closes, [close]);
    TwoParts([o] + middle, [c], indent, tail);
    TwoParts([o], middle, indent, Render([c], indent) + tail);
    OneLine(o, indent, Render(middle, indent) + (Render([c], indent) + tail));
    OneLine(c, indent, tail);
    Concat([], Indent(depth, indent), []);
    hide Render;
    hide Indent;
  }

  /** The writer's text is these lines, whatever the indentation. */
  lemma {:induction false} TextIsLines(v: Value, comma: bool, depth: int, indent: int, tail: bytes)
    ensures Text(v, comma, depth, indent, tail) == Render(LinesOf(v, comma, depth), indent) + tail
    decreases v, 1
  {
    match v
    case Obj(members) =>
      var rest := Indent(depth, indent) + ([RBRACE] + tail);
      MembersAreLines(members, false, depth + 1, indent, rest);
      Bracketed(comma, depth, indent, 123, MemberLines(members, false, depth + 1), 125, tail);
      hide Render;
      hide MemberLines;
      hide MembersText;
      hide Lead;
      hide Indent;
    case Arr(items) =>
      var rest := Indent(depth, indent) + ([RBRACKET] + tail);
      ItemsAreLines(items, false, depth + 1, indent, rest);
      Bracketed(comma, depth, indent, 91, ItemLines(items, false, depth + 1), 93, tail);
      hide Render;
      hide ItemLines;
      hide ItemsText;
      hide Lead;
      hide Indent;
    case _ =>
      ScalarIsLine(v, comma, depth, indent, tail);
  }

  lemma ScalarIsLine(v: Value, comma: bool, depth: int, indent: int, tail: bytes)
    requires !v.Obj? && !v.Arr?
    ensures Text(v, comma, depth, indent, tail) == Render(LinesOf(v, comma, depth), indent) + tail
  {
    if v.Str? { EscapedTail(v.s, tail); }
    var l := LinesOf(v, comma, depth)[0];
    assert LinesOf(v, comma, depth) == [l];
    OneLine(l, indent, tail);
    hide Escaped;
    hide IntText;
    hide FloatText;
    hide Render;
    hide Lead;
  }

  lemma {:induction false} ItemsAreLines(items: Items, comma: bool, depth: int, indent: int, tail: bytes)
    ensures ItemsText(items, comma, depth, indent, tail) == Render(ItemLines(items, comma, depth), indent) + tail
    decreases items, 2
  {
    match items
    case NoItems => Concat([], tail, []);
    case Item(v, rest) =>
      ItemsAreLines(rest, true, depth, indent, tail);
      TextIsLines(v, comma, depth, indent, ItemsText(rest, true, depth, indent, tail));
      TwoParts(LinesOf(v, comma, depth), ItemLines(rest, true, depth), indent, tail);
      hide Render;
      hide LinesOf;
      hide Text;
  }

  lemma {:induction false} MembersAreLines(members: Members, comma: bool, depth: int, indent: int, tail: bytes)
    ensures MembersText(members, comma, depth, indent, tail) == Render(MemberLines(members, comma, depth), indent) + tail
    decreases members, 2
  {
    match members
    case NoMembers => Concat([], tail, []);
    case Pair(key, v, rest) =>
      var after := MembersText(rest, true, depth, indent, tail);
      MembersAreLines(rest, true, depth, indent, tail);
      TextIsLines(v, false, depth, indent, after);
      var l := Line(comma, depth, Plain, Escaped(key, []) + [58, 32]);
      var ls, ms := LinesOf(v, false, depth), MemberLines(rest, true, depth);
      PairLine(l, key, indent, Render(ls, indent) + after);
      TwoParts([l] + ls, ms, indent, tail);
      TwoParts([l], ls, indent, Render(ms, indent) + tail);
      hide Render;
      hide LinesOf;
      hide Text;
      hide Lead;
      hide KeyText;
    case Triple(key, x, y, z, rest) =>
      var after := MembersText(rest, true, depth, indent, tail);
      MembersAreLines(rest, true, depth, indent, tail);
      var l := Line(comma, depth, Plain,
                    Escaped(key, []) + [58, 32] + [91] + FloatText(x) + [44, 32] + FloatText(y) + [44, 32] + FloatText(z) + [93]);
      TripleLine(l, key, x, y, z, indent, after);
      TwoParts([l], MemberLines(rest, true, depth), indent, tail);
      hide Render;
      hide Lead;
      hide KeyText;
      hide TripleText;
      hide FloatText;
  }

  lemma PairLine(l: Line, key: Option<bytes>, indent: int, tail: bytes)
    requires l.text == Escaped(key, []) + [58, 32]
    ensures Render([l], indent) + tail == Lead(l.comma, l.depth, indent) + KeyText(key, tail)
  {
    OneLine(l, indent, tail);
    EscapedTail(key, [COLON, SPACE] + tail);
    Concat(Escaped(key, []), [58, 32], tail);
    hide Render;
    hide Escaped;
    hide Lead;
  }

  lemma TripleLine(l: Line, key: Option<bytes>, x: Float, y: Float, z: Float, indent: int, tail: bytes)
    requires l.text == Escaped(key, []) + [58, 32] + [91] + FloatText(x) + [44, 32] + FloatText(y) + [44, 32] + FloatText(z) + [93]
    ensures Render([l], indent) + tail == Lead(l.comma, l.depth, indent) + KeyText(key, TripleText(x, y, z, tail))
  {
    OneLine(l, indent, tail);
    EscapedTail(key, [COLON, SPACE] + TripleText(x, y, z, tail));
    var a, b, c := FloatText(x), FloatText(y), FloatText(z);
    Chain(Escaped(key, []), [58, 32], [91], a, [44, 32], b, [44, 32], c, [93], tail);
    hide Render;
    hide Escaped;
    hide Lead;
    hide FloatText;
    Concat([COLON, SPACE], TripleText(x, y, z, tail), []);
  }

  lemma Chain(a: bytes, b: bytes, c: bytes, d: bytes, e: bytes, f: bytes, g: bytes, h: bytes, i: bytes, t: bytes)
    ensures a + b + c + d + e + f + g + h + i + t == a + (b + (c + (d + (e + (f + (g + (h + (i + t))))))))
  {
    Concat(a + b + c + d + e + f + g + h, i, t);
    Concat(a + b + c + d + e + f + g, h, i + t);
    Concat(a + b + c + d + e + f, g, h + (i + t));
    Concat(a + b + c + d + e, f, g + (h + (i + t)));
    Concat(a + b + c + d, e, f + (g + (h + (i + t))));
    Concat(a + b + c, d, e + (f + (g + (h + (i + t)))));
    Concat(a + b, c, d + (e + (f + (g + (h + (i + t))))));
    Concat(a, b, c + (d + (e + (f + (g + (h + (i + t)))))));
  }

  // ---- where lines stand ----

  /** The depth after the lines, if each stands at the depth it is reached with: an opening bracket takes
      what follows one deeper, a closing one stands one less deep and what follows with it. */
  function Nested(ls: seq<Line>, depth: int): (d: Option<int>) {
    if |ls| == 0 then Some(depth)
    else match ls[0].kind
      case Opens => if ls[0].depth == depth then Nested(ls[1..], depth + 1) else None
      case Closes => if ls[0].depth == depth - 1 then Nested(ls[1..], depth - 1) else None
      case Plain => if ls[0].depth == depth then Nested(ls[1..], depth) else None
  }

  lemma {:induction false} NestedJoin(a: seq<Line>, b: seq<Line>, depth: int)
    ensures Nested(a + b, depth) == match Nested(a, depth) case None => None case Some(d) => Nested(b, d)
    decreases |a|
  {
    if |a| == 0 {
      assert a + b == b;
    } else {
      assert (a + b)[1..] == a[1..] + b;
      NestedJoin(a[1..], b, depth + 1);
      NestedJoin(a[1..], b, depth - 1);
      NestedJoin(a[1..], b, depth);
    }
  }

  /** Every line of a value stands as deep as there are brackets open around it. */
  lemma {:induction false} LinesNested(v: Value, comma: bool, depth: int)
    ensures Nested(LinesOf(v, comma, depth), depth) == Some(depth)
    decreases v, 1
  {
    match v
    case Obj(members) =>
      MembersNested(members, false, depth + 1);
      Around(Line(comma, depth, Opens, [123]), MemberLines(members, false, depth + 1), Line(false, depth, Closes, [125]), depth);
    case Arr(items) =>
      ItemsNested(items, false, depth + 1);
      Around(Line(comma, depth, Opens, [91]), ItemLines(items, false, depth + 1), Line(false, depth, Closes, [93]), depth);
    case _ =>
  }

  lemma Around(o: Line, middle: seq<Line>, c: Line, depth: int)
    requires o.kind.Opens? && c.kind.Closes? && o.depth == c.depth == depth && Nested(middle, depth + 1) == Some(depth + 1)
    ensures Nested([o] + middle + [c], depth) == Some(depth)
  {
    NestedJoin([o] + middle, [c], depth);
    NestedJoin([o], middle, depth);
  }

  lemma {:induction false} ItemsNested(items: Items, comma: bool, depth: int)
    ensures Nested(ItemLines(items, comma, depth), depth) == Some(depth)
    decreases items, 2
  {
    if items.Item? {
      LinesNested(items.v, comma, depth);
      ItemsNested(items.rest, true, depth);
      NestedJoin(LinesOf(items.v, comma, depth), ItemLines(items.rest, true, depth), depth);
      hide Nested;
      hide LinesOf;
    }
  }

  lemma {:induction false} MembersNested(members: Members, comma: bool, depth: int)
    ensures Nested(MemberLines(members, comma, depth), depth) == Some(depth)
    decreases members, 2
  {
    match members
    case NoMembers =>
    case Pair(key, v, rest) =>
      LinesNested(v, false, depth);
      MembersNested(rest, true, depth);
      var l := Line(comma, depth, Plain, Escaped(key, []) + [58, 32]);
      var ls, ms := LinesOf(v, false, depth), MemberLines(rest, true, depth);
      NestedJoin([l] + ls, ms, depth);
      NestedJoin([l], ls, depth);
      assert Nested([l], depth) == Some(depth);
      hide Nested;
      hide LinesOf;
      hide Escaped;
    case Triple(key, x, y, z, rest) =>
      MembersNested(rest, true, depth);
      var l := MemberLines(members, comma, depth)[0];
      assert l.kind.Plain? && l.depth == depth;
      NestedJoin([l], MemberLines(rest, true, depth), depth);
      assert Nested([l], depth) == Some(depth);
      hide Nested;
      hide Escaped;
      hide FloatText;
  }

  // ---- strings ----

  /** Nothing is escaped that need not be: a character stands for itself unless it is a quote, a backslash
      or a control character; of those the seven with a short form take two octets, the others six. */
  lemma EscapedLength(c: byte)
    ensures EscapedChar(c) == [c] <==> c >= 32 && c != 34 && c != 92
    ensures |EscapedChar(c)| == 1 || |EscapedChar(c)| == 2 || |EscapedChar(c)| == 6
    ensures |EscapedChar(c)| == 2 <==> c in [34, 92, 8, 12, 10, 13, 9]
  {
    hide HexDigit;
  }
}
