/** What the writer emits parses back to the tree that was driven through it, under the grammar
    of RFC 8259, exactly when no key is NULL and no float is infinite or not a number. */
module JsonRoundTrip {
  import opened Bytes
  import opened JsonText

  // ---- the tree a reader should see ----

  predicate CleanFloat(f: Float) {
    f.Fixed?
  }

  predicate Clean(v: Value) {
    match v
    case Obj(members) => CleanMembers(members)
    case Arr(items) => CleanItems(items)
    case Flt(f) => CleanFloat(f)
    case _ => true
  }

  predicate CleanItems(items: Items) {
    match items case NoItems => true case Item(v, rest) => Clean(v) && CleanItems(rest)
  }

  predicate CleanMembers(members: Members) {
    match members
    case NoMembers => true
    case Pair(key, v, rest) => key.Some? && Clean(v) && CleanMembers(rest)
    case Triple(key, x, y, z, rest) => key.Some? && CleanFloat(x) && CleanFloat(y) && CleanFloat(z) && CleanMembers(rest)
  }

  function NumberOf(f: Float): (r: Number) {
    match f
    case Fixed(negative, scaled, dec) => Number(negative, scaled, if dec < 0 then 6 else dec, 0)
    case NotFinite(_, _) => Number(false, 0, 0, 0)
  }

  /** A NULL string reads back as null, a triple as an array of three numbers. */
  function Seen(v: Value): (r: Json) {
    match v
    case Obj(members) => JObj(SeenMembers(members))
    case Arr(items) => JArr(SeenItems(items))
    case Str(s) => if s.None? then JNull else JStr(s.value)
    case Int(n) => JNum(Number(n < 0, if n < 0 then -n else n, 0, 0))
    case Flt(f) => JNum(NumberOf(f))
    case Bool(b) => JBool(b)
    case Null => JNull
  }

  function SeenItems(items: Items): (r: JItems) {
    match items case NoItems => JNoItems case Item(v, rest) => JItem(Seen(v), SeenItems(rest))
  }

  function SeenTriple(x: Float, y: Float, z: Float): (r: Json) {
    JArr(JItem(JNum(NumberOf(x)), JItem(JNum(NumberOf(y)), JItem(JNum(NumberOf(z)), JNoItems))))
  }

  function KeyOf(key: Option<bytes>): (s: bytes) {
    if key.Some? then key.value else []
  }

  function SeenMembers(members: Members): (r: JMembers) {
    match members
    case NoMembers => JNoMembers
    case Pair(key, v, rest) => JPair(KeyOf(key), Seen(v), SeenMembers(rest))
    case Triple(key, x, y, z, rest) => JPair(KeyOf(key), SeenTriple(x, y, z), SeenMembers(rest))
  }

  // ---- white space ----

  /** What may follow a value. */
  predicate Stops(s: bytes) {
    s == [] || s[0] == COMMA || s[0] == RBRACE || s[0] == RBRACKET || s[0] == NEWLINE || s[0] == SPACE
  }

  predicate Solid(s: bytes) {
    |s| > 0 && !IsWs(s[0])
  }

  lemma {:induction false} SkipSpaces(n: int, s: bytes)
    ensures SkipWs(Spaces(n) + s) == SkipWs(s)
    decreases n
  {
    if n <= 0 {
      assert Spaces(n) + s == s;
    } else {
      SkipSpaces(n - 1, [SPACE] + s);
      Concat(Spaces(n - 1), [SPACE], s);
      assert ([SPACE] + s)[1..] == s;
    }
  }

  lemma SkipIndent(depth: int, indent: int, s: bytes)
    ensures SkipWs(Indent(depth, indent) + s) == SkipWs(s)
  {
    if indent <= 0 {
      assert Indent(depth, indent) + s == s;
    } else {
      SkipSpaces(depth * indent, s);
      Concat([NEWLINE], Spaces(depth * indent), s);
      assert ([NEWLINE] + (Spaces(depth * indent) + s))[1..] == Spaces(depth * indent) + s;
    }
  }

  lemma IndentStops(depth: int, indent: int, s: bytes)
    requires Stops(s)
    ensures Stops(Indent(depth, indent) + s)
  {
    if indent <= 0 { assert Indent(depth, indent) + s == s; }
  }

  lemma SkipSolid(s: bytes)
    requires Solid(s)
    ensures SkipWs(s) == s
  {
  }

  lemma ParseSkips(s: bytes, t: bytes)
    requires SkipWs(s) == SkipWs(t)
    ensures ParseValue(s) == ParseValue(t)
  {
    hide SkipWs;
    hide ParseObject;
    hide ParseArray;
    hide ParseString;
    hide ParseNumber;
    hide ParseWord;
  }

  // ---- strings ----

  lemma CharRoundTrip(c: byte, t: bytes)
    ensures EscapedChar(c)[0] != QUOTE && ParseChar(EscapedChar(c) + t) == Some(([c], t))
  {
    var s := EscapedChar(c) + t;
    assert s[|EscapedChar(c)|..] == t;
    if c < 32 && c != 8 && c != 12 && c != 10 && c != 13 && c != 9 {
      HexPair(c);
    }
  }

  lemma HexPair(c: byte)
    requires c < 32
    ensures HexValue(HexDigit(c / 16)) == Some(c / 16) && HexValue(HexDigit(c % 16)) == Some(c % 16)
    ensures HexValue(48) == Some(0) && Utf8(c / 16 * 16 + c % 16) == [c]
  {
  }

  lemma ParseCharsStep(c: byte, t: bytes)
    ensures ParseChars(EscapedChar(c) + t) ==
            match ParseChars(t) case None => None case Some((cs, rest)) => Some(([c] + cs, rest))
  {
    CharRoundTrip(c, t);
    hide ParseChar;
    hide EscapedChar;
    assert (EscapedChar(c) + t)[0] == EscapedChar(c)[0];
  }

  lemma {:induction false} CharsRoundTrip(s: bytes, tail: bytes)
    ensures ParseChars(EscapedChars(s, [QUOTE] + tail)) == Some((s, tail))
    decreases |s|
  {
    if |s| == 0 {
      assert ([QUOTE] + tail)[1..] == tail;
    } else {
      CharsRoundTrip(s[1..], tail);
      ParseCharsStep(s[0], EscapedChars(s[1..], [QUOTE] + tail));
      assert [s[0]] + s[1..] == s;
      hide ParseChars;
      hide EscapedChar;
    }
  }

  /** A string read back is the string written, whatever follows; NULL is no string. */
  lemma StringRoundTrip(s: Option<bytes>, tail: bytes)
    ensures Solid(Escaped(s, tail))
    ensures ParseString(Escaped(s, tail)) == if s.Some? then Some((s.value, tail)) else None
  {
    if s.Some? {
      var t := EscapedChars(s.value, [QUOTE] + tail);
      assert ([QUOTE] + t)[1..] == t;
      CharsRoundTrip(s.value, tail);
      hide ParseChars;
      hide EscapedChars;
    }
  }

  // ---- numbers ----

  ghost predicate AllDigits(ds: bytes) {
    forall i :: 0 <= i < |ds| ==> IsDigit(ds[i])
  }

  predicate NoDigit(s: bytes) {
    s == [] || !IsDigit(s[0])
  }

  lemma {:induction false} RunOf(ds: bytes, s: bytes)
    requires AllDigits(ds) && NoDigit(s)
    ensures DigitRun(ds + s) == |ds|
    decreases |ds|
  {
    if |ds| == 0 {
      assert ds + s == s;
    } else {
      assert (ds + s)[1..] == ds[1..] + s;
      RunOf(ds[1..], s);
    }
  }

  lemma DecimalAppend(ds: bytes, d: byte)
    requires IsDigit(d)
    ensures Decimal(ds + [d]) == Decimal(ds) * 10 + (d - 48)
  {
    assert (ds + [d])[..|ds|] == ds;
  }

  lemma {:induction false} DigitsAre(n: nat)
    ensures AllDigits(Digits(n)) && Decimal(Digits(n)) == n
    ensures Digits(n)[0] == ZERO ==> n == 0 && |Digits(n)| == 1
  {
    if n >= 10 {
      DigitsAre(n / 10);
      DecimalAppend(Digits(n / 10), 48 + n % 10);
    } else {
      assert [ZERO as int + n] == [] + [48 + n];
      DecimalAppend([], 48 + n);
    }
  }

  lemma {:induction false} PaddedAre(n: nat, k: nat)
    ensures AllDigits(Padded(n, k))
    ensures Decimal(Digits(Whole(n, k)) + Padded(n, k)) == n
    decreases k
  {
    hide Digits;
    hide Decimal;
    if k == 0 {
      DigitsAre(n);
      Concat(Digits(n), [], []);
    } else {
      PaddedAre(n / 10, k - 1);
      var a, b := Digits(Whole(n / 10, k - 1)), Padded(n / 10, k - 1);
      Concat(a, b, [48 + n % 10]);
      DecimalAppend(a + b, 48 + n % 10);
    }
  }

  predicate NumberEnds(s: bytes) {
    s == [] || (!IsDigit(s[0]) && s[0] != DOT && s[0] != 101 && s[0] != 69)
  }

  lemma StopsEnd(s: bytes)
    requires Stops(s)
    ensures NumberEnds(s)
  {
  }

  /** The parts of a number behind its sign. */
  lemma NumberParts(t: bytes, ds: bytes, rest: bytes)
    requires t == ds + rest && |ds| > 0 && AllDigits(ds) && NoDigit(rest) && (ds[0] == ZERO ==> |ds| == 1)
    ensures DigitRun(t) == |ds| && t[0] == ds[0]
    ensures t[..|ds|] == ds && t[|ds|..] == rest
  {
    RunOf(ds, rest);
  }

  /** The text cut into sign, digits and remainder. */
  ghost predicate Cut(s: bytes, negative: bool, t: bytes, ds: bytes, u: bytes) {
    && |s| > 0 && (s[0] == MINUS <==> negative) && (if negative then s[1..] else s) == t
    && |ds| > 0 && |t| > 0 && DigitRun(t) == |ds| && t[0] == ds[0] && (ds[0] == ZERO ==> |ds| == 1)
    && t[..|ds|] == ds && t[|ds|..] == u
  }

  lemma CutNumber(negative: bool, ds: bytes, u: bytes)
    requires |ds| > 0 && AllDigits(ds) && NoDigit(u) && (ds[0] == ZERO ==> |ds| == 1)
    ensures Cut(Sign(negative) + (ds + u), negative, ds + u, ds, u)
  {
    NumberParts(ds + u, ds, u);
    SignSplit(negative, ds + u);
    hide DigitRun;
    hide Sign;
  }

  lemma NoExponent(tail: bytes)
    requires NumberEnds(tail)
    ensures ParseExponent(tail) == Some((0, tail))
  {
  }

  lemma WholeNumber(s: bytes, negative: bool, t: bytes, ds: bytes, tail: bytes)
    requires Cut(s, negative, t, ds, tail) && NumberEnds(tail)
    ensures ParseNumber(s) == Some((Number(negative, Decimal(ds), 0, 0), tail))
  {
    NoExponent(tail);
    assert ds + [] == ds;
    hide Decimal;
    hide DigitRun;
    hide ParseExponent;
  }

  lemma PointNumber(s: bytes, negative: bool, t: bytes, ds: bytes, u: bytes, ps: bytes, tail: bytes)
    requires Cut(s, negative, t, ds, u) && NumberEnds(tail)
    requires |u| > 0 && u[0] == DOT && DigitRun(u[1..]) == |ps| > 0 && 1 + |ps| <= |u|
    requires u[1..1 + |ps|] == ps && u[1 + |ps|..] == tail
    ensures ParseNumber(s) == Some((Number(negative, Decimal(ds + ps), |ps|, 0), tail))
  {
    NoExponent(tail);
    hide Decimal;
    hide DigitRun;
    hide ParseExponent;
  }

  lemma UnsignedWhole(negative: bool, ds: bytes, tail: bytes)
    requires |ds| > 0 && AllDigits(ds) && NumberEnds(tail) && (ds[0] == ZERO ==> |ds| == 1)
    ensures ParseNumber(Sign(negative) + (ds + tail)) == Some((Number(negative, Decimal(ds), 0, 0), tail))
  {
    hide ParseNumber;
    hide Cut;
    CutNumber(negative, ds, tail);
    WholeNumber(Sign(negative) + (ds + tail), negative, ds + tail, ds, tail);
  }

  lemma SignSplit(negative: bool, t: bytes)
    requires |t| > 0 && IsDigit(t[0])
    ensures var s := Sign(negative) + t;
            (s[0] == MINUS <==> negative) && (if negative then s[1..] else s) == t
  {
  }

  lemma UnsignedPoint(negative: bool, ds: bytes, ps: bytes, tail: bytes)
    requires |ds| > 0 && AllDigits(ds) && |ps| > 0 && AllDigits(ps) && NumberEnds(tail) && (ds[0] == ZERO ==> |ds| == 1)
    ensures ParseNumber(Sign(negative) + (ds + ([DOT] + (ps + tail)))) ==
            Some((Number(negative, Decimal(ds + ps), |ps|, 0), tail))
  {
    var u := [DOT] + (ps + tail);
    RunOf(ps, tail);
    assert u[1..] == ps + tail && u[1..1 + |ps|] == ps && u[1 + |ps|..] == tail;
    hide ParseNumber;
    hide Cut;
    hide DigitRun;
    hide Decimal;
    hide Sign;
    CutNumber(negative, ds, u);
    PointNumber(Sign(negative) + (ds + u), negative, ds + u, ds, u, ps, tail);
  }

  lemma FloatRoundTrip(f: Float, tail: bytes)
    requires f.Fixed? && Stops(tail)
    ensures ParseNumber(FloatText(f) + tail) == Some((NumberOf(f), tail))
  {
    var k := Places(f.dec);
    var ds, ps := Digits(Whole(f.scaled, k)), Padded(f.scaled, k);
    StopsEnd(tail);
    DigitsAre(Whole(f.scaled, k));
    PaddedAre(f.scaled, k);
    hide Whole;
    hide Digits;
    hide Padded;
    hide ParseNumber;
    hide Decimal;
    if k == 0 {
      assert ps == [];
      Concat(ds, [], []);
      Concat(Sign(f.negative), ds, tail);
      UnsignedWhole(f.negative, ds, tail);
    } else {
      Concat(Sign(f.negative), ds + ([DOT] + ps), tail);
      Concat(ds, [DOT] + ps, tail);
      Concat([DOT], ps, tail);
      UnsignedPoint(f.negative, ds, ps, tail);
    }
  }

  lemma IntRoundTrip(v: int, tail: bytes)
    requires Stops(tail)
    ensures ParseNumber(IntText(v) + tail) == Some((Number(v < 0, if v < 0 then -v else v, 0, 0), tail))
  {
    var n := if v < 0 then -v else v;
    DigitsAre(n);
    StopsEnd(tail);
    hide Digits;
    hide ParseNumber;
    hide Decimal;
    Concat(Sign(v < 0), Digits(n), tail);
    if v >= 0 { assert [] + (Digits(n) + tail) == Digits(n) + tail; }
    UnsignedWhole(v < 0, Digits(n), tail);
  }

  // ---- values ----

  function Read<T>(ok: bool, x: T, tail: bytes): (r: Option<(T, bytes)>) {
    if ok then Some((x, tail)) else None
  }

  /** A value's text starts like a value. */
  ghost predicate Opens(s: bytes) {
    |s| > 0 && !IsWs(s[0]) && s[0] != RBRACE && s[0] != RBRACKET
  }

  /** What starts like a number is read as one. */
  lemma NumberReads(s: bytes)
    requires |s| > 0 && (s[0] == MINUS || IsDigit(s[0]))
    ensures Opens(s)
    ensures ParseValue(s) == match ParseNumber(s) case None => None case Some((n, rest)) => Some((JNum(n), rest))
  {
    SkipSolid(s);
    hide ParseNumber;
    hide ParseString;
    hide ParseObject;
    hide ParseArray;
    hide SkipWs;
  }

  lemma FloatReads(f: Float, tail: bytes)
    requires Stops(tail)
    ensures Opens(FloatText(f) + tail)
    ensures ParseValue(FloatText(f) + tail) == Read(CleanFloat(f), JNum(NumberOf(f)), tail)
  {
    var s := FloatText(f) + tail;
    FloatFirst(f, tail);
    SkipSolid(s);
    if f.Fixed? {
      FloatRoundTrip(f, tail);
    } else {
      NotFiniteFails(f.negative, f.nan, tail);
    }
    hide FloatText;
    hide ParseNumber;
    hide ParseString;
    hide ParseObject;
    hide ParseArray;
    hide SkipWs;
    hide NumberOf;
  }

  lemma FloatFirst(f: Float, tail: bytes)
    ensures var s := FloatText(f) + tail;
            |s| > 0 && (f.Fixed? ==> s[0] == MINUS || IsDigit(s[0])) && (f.NotFinite? ==> s[0] == MINUS || s[0] == 110 || s[0] == 105)
  {
    if f.Fixed? {
      DigitsAre(Whole(f.scaled, Places(f.dec)));
      hide Digits;
      hide Whole;
      hide Padded;
      hide Decimal;
    }
  }

  lemma NotFiniteFails(negative: bool, nan: bool, tail: bytes)
    ensures var s := FloatText(NotFinite(negative, nan)) + tail;
            |s| > 0 && (if s[0] == MINUS then ParseNumber(s) == None else s[0] == 105 || (s[0] == 110 && !(NULL <= s)))
  {
    var s := FloatText(NotFinite(negative, nan)) + tail;
    if negative {
      var t := s[1..];
      assert t[0] == 110 || t[0] == 105;
      assert DigitRun(t) == 0;
      hide ParseExponent;
      hide Decimal;
    } else {
      assert s[1] != NULL[1];
    }
  }

  lemma IntFirst(n: int, tail: bytes)
    ensures var s := IntText(n) + tail; |s| > 0 && (s[0] == MINUS || IsDigit(s[0]))
  {
    DigitsAre(if n < 0 then -n else n);
    hide Digits;
    hide Decimal;
  }

  lemma IntReads(n: int, tail: bytes)
    requires Stops(tail)
    ensures Opens(IntText(n) + tail)
    ensures ParseValue(IntText(n) + tail) == Some((Seen(Int(n)), tail))
  {
    hide IntText;
    hide ParseNumber;
    hide ParseValue;
    hide Opens;
    IntFirst(n, tail);
    IntRoundTrip(n, tail);
    NumberReads(IntText(n) + tail);
  }

  lemma StringReads(x: Option<bytes>, tail: bytes)
    ensures Opens(Escaped(x, tail))
    ensures ParseValue(Escaped(x, tail)) == Some((Seen(Str(x)), tail))
  {
    var s := Escaped(x, tail);
    StringRoundTrip(x, tail);
    SkipSolid(s);
    if x.None? { assert NULL <= s && s[|NULL|..] == tail; }
    hide EscapedChars;
    hide ParseNumber;
    hide ParseString;
    hide ParseObject;
    hide ParseArray;
    hide SkipWs;
  }

  lemma WordReads(v: Value, depth: int, indent: int, tail: bytes)
    requires v.Bool? || v.Null?
    ensures Opens(Bare(v, depth, indent, tail))
    ensures ParseValue(Bare(v, depth, indent, tail)) == Some((Seen(v), tail))
  {
    var s := Bare(v, depth, indent, tail);
    var word := match v case Bool(b) => if b then TRUE else FALSE case _ => NULL;
    assert word <= s && s[|word|..] == tail;
    SkipSolid(s);
    hide ParseNumber;
    hide ParseString;
    hide ParseObject;
    hide ParseArray;
    hide SkipWs;
  }

  // ---- lists ----

  /** How the item parser goes on behind an item. */
  lemma ItemsStep(s: bytes, r: Option<(Json, bytes)>, next: bytes)
    requires ParseValue(s) == r
    ensures r.None? ==> ParseItems(s) == None
    ensures r.Some? && SkipWs(r.value.1) == [RBRACKET] + next ==> ParseItems(s) == Some((JItem(r.value.0, JNoItems), next))
    ensures r.Some? && SkipWs(r.value.1) == [COMMA] + next ==>
              ParseItems(s) == match ParseItems(next) case None => None case Some((items, rest)) => Some((JItem(r.value.0, items), rest))
  {
    assert ([RBRACKET] + next)[1..] == next && ([COMMA] + next)[1..] == next;
    hide ParseValue;
    hide SkipWs;
  }

  lemma ItemsTail(rest: Items, depth: int, indent: int, close: bytes)
    requires Stops(close)
    ensures var t := ItemsText(rest, true, depth, indent, close);
            && Stops(t)
            && (rest.NoItems? ==> t == close)
            && (rest.Item? ==>
                  SkipWs(t) == [COMMA] + (Indent(depth, indent) + Bare(rest.v, depth, indent, ItemsText(rest.rest, true, depth, indent, close))))
  {
    if rest.Item? {
      var more := Bare(rest.v, depth, indent, ItemsText(rest.rest, true, depth, indent, close));
      Concat([COMMA], Indent(depth, indent), more);
      hide Bare;
      hide Indent;
    }
  }

  lemma ItemsRead(items: Items, depth: int, indent: int, close: bytes, tail: bytes)
    requires items.Item? && SkipWs(close) == [RBRACKET] + tail && Stops(close)
    ensures ParseItems(Indent(depth, indent) + Bare(items.v, depth, indent, ItemsText(items.rest, true, depth, indent, close))) ==
            Read(CleanItems(items), SeenItems(items), tail)
    decreases items, 2
  {
    var t := ItemsText(items.rest, true, depth, indent, close);
    var s := Indent(depth, indent) + Bare(items.v, depth, indent, t);
    hide ParseItems;
    hide ParseValue;
    hide Bare;
    hide Indent;
    hide SkipWs;
    hide ItemsText;
    hide Stops;
    ItemsTail(items.rest, depth, indent, close);
    SkipIndent(depth, indent, Bare(items.v, depth, indent, t));
    ParseSkips(s, Bare(items.v, depth, indent, t));
    ValueReads(items.v, depth, indent, t);
    if items.rest.NoItems? {
      ItemsStep(s, ParseValue(s), tail);
    } else {
      var next := Indent(depth, indent) + Bare(items.rest.v, depth, indent, ItemsText(items.rest.rest, true, depth, indent, close));
      ItemsStep(s, ParseValue(s), next);
      ItemsRead(items.rest, depth, indent, close, tail);
    }
  }

  lemma MembersStep(s: bytes, key: bytes, after: bytes, x: bytes, r: Option<(Json, bytes)>, next: bytes)
    requires ParseString(SkipWs(s)) == Some((key, after)) && SkipWs(after) == [COLON] + x && ParseValue(x) == r
    ensures r.None? ==> ParseMembers(s) == None
    ensures r.Some? && SkipWs(r.value.1) == [RBRACE] + next ==> ParseMembers(s) == Some((JPair(key, r.value.0, JNoMembers), next))
    ensures r.Some? && SkipWs(r.value.1) == [COMMA] + next ==>
              ParseMembers(s) == match ParseMembers(next) case None => None case Some((ms, rest)) => Some((JPair(key, r.value.0, ms), rest))
  {
    assert ([RBRACE] + next)[1..] == next && ([COMMA] + next)[1..] == next && ([COLON] + x)[1..] == x;
    hide ParseValue;
    hide ParseString;
    hide SkipWs;
  }

  lemma NoKey(s: bytes)
    requires ParseString(SkipWs(s)) == None
    ensures ParseMembers(s) == None
  {
    hide ParseString;
    hide SkipWs;
  }

  /** A member's text behind its comma and indentation. */
  function MemberText(members: Members, depth: int, indent: int, close: bytes): (s: bytes)
    requires !members.NoMembers?
  {
    var t := MembersText(members.rest, true, depth, indent, close);
    KeyText(members.key, if members.Pair? then Text(members.v, false, depth, indent, t) else TripleText(members.x, members.y, members.z, t))
  }

  lemma MembersTail(rest: Members, depth: int, indent: int, close: bytes)
    requires Stops(close)
    ensures var t := MembersText(rest, true, depth, indent, close);
            && Stops(t)
            && (rest.NoMembers? ==> t == close)
            && (!rest.NoMembers? ==> SkipWs(t) == [COMMA] + (Indent(depth, indent) + MemberText(rest, depth, indent, close)))
  {
    if !rest.NoMembers? {
      Concat([COMMA], Indent(depth, indent), MemberText(rest, depth, indent, close));
      hide KeyText;
      hide Text;
      hide TripleText;
      hide Indent;
    }
  }

  /** The value of a member: any value, or three numbers. */
  lemma MemberValue(members: Members, depth: int, indent: int, t: bytes)
    requires !members.NoMembers? && Stops(t)
    ensures var x := if members.Pair? then Text(members.v, false, depth, indent, t) else TripleText(members.x, members.y, members.z, t);
            ParseValue([SPACE] + x) ==
            if members.Pair? then Read(Clean(members.v), Seen(members.v), t)
            else Read(CleanFloat(members.x) && CleanFloat(members.y) && CleanFloat(members.z), SeenTriple(members.x, members.y, members.z), t)
    decreases members, 0
  {
    hide ParseValue;
    hide TripleText;
    if members.Pair? {
      var b := Bare(members.v, depth, indent, t);
      assert Text(members.v, false, depth, indent, t) == Indent(depth, indent) + b by { Concat([], Indent(depth, indent), b); }
      hide Text;
      hide Bare;
      SkipIndent(depth, indent, b);
      SkipSpace(Indent(depth, indent) + b);
      ParseSkips([SPACE] + (Indent(depth, indent) + b), b);
      ValueReads(members.v, depth, indent, t);
    } else {
      var x := TripleText(members.x, members.y, members.z, t);
      SkipSpace(x);
      ParseSkips([SPACE] + x, x);
      TripleReads(members.x, members.y, members.z, t);
    }
  }

  lemma SkipSpace(s: bytes)
    ensures SkipWs([SPACE] + s) == SkipWs(s)
  {
    assert ([SPACE] + s)[1..] == s;
  }

  /** One item of a triple and what the item parser makes of the rest. */
  lemma TripleItem(f: Float, rest: bytes)
    ensures ParseItems(FloatText(f) + ([COMMA, SPACE] + rest)) ==
            match ParseItems([SPACE] + rest)
            case None => None
            case Some((items, t)) => if f.Fixed? then Some((JItem(JNum(NumberOf(f)), items), t)) else None
  {
    var u := [COMMA, SPACE] + rest;
    assert u == [COMMA] + ([SPACE] + rest);
    SkipSolid(u);
    hide ParseItems;
    hide ParseValue;
    hide FloatText;
    hide SkipWs;
    hide NumberOf;
    FloatReads(f, u);
    ItemsStep(FloatText(f) + u, ParseValue(FloatText(f) + u), [SPACE] + rest);
  }

  lemma SpaceItems(s: bytes)
    ensures ParseItems([SPACE] + s) == ParseItems(s)
  {
    SkipSpace(s);
    ParseSkips([SPACE] + s, s);
    hide ParseValue;
    hide SkipWs;
  }

  lemma LastItem(f: Float, tail: bytes)
    ensures ParseItems(FloatText(f) + ([RBRACKET] + tail)) == if f.Fixed? then Some((JItem(JNum(NumberOf(f)), JNoItems), tail)) else None
  {
    var u := [RBRACKET] + tail;
    SkipSolid(u);
    hide ParseItems;
    hide ParseValue;
    hide FloatText;
    hide SkipWs;
    hide NumberOf;
    FloatReads(f, u);
    ItemsStep(FloatText(f) + u, ParseValue(FloatText(f) + u), tail);
  }

  lemma TripleReads(x: Float, y: Float, z: Float, tail: bytes)
    requires Stops(tail)
    ensures ParseValue(TripleText(x, y, z, tail)) == Read(CleanFloat(x) && CleanFloat(y) && CleanFloat(z), SeenTriple(x, y, z), tail)
  {
    hide ParseItems;
    hide FloatText;
    hide NumberOf;
    hide SkipWs;
    hide ParseValue;
    var c := FloatText(z) + ([RBRACKET] + tail);
    var b := FloatText(y) + ([COMMA, SPACE] + c);
    var a := FloatText(x) + ([COMMA, SPACE] + b);
    LastItem(z, tail);
    SpaceItems(c);
    TripleItem(y, c);
    SpaceItems(b);
    TripleItem(x, b);
    FloatReads(x, [COMMA, SPACE] + b);
    OpensSolid(a);
    ArrayIs(a);
  }

  /** An array that is not empty is its items. */
  lemma ArrayIs(s: bytes)
    requires Opens(SkipWs(s))
    ensures ParseValue([LBRACKET] + s) == match ParseItems(s) case None => None case Some((items, rest)) => Some((JArr(items), rest))
  {
    SkipSolid([LBRACKET] + s);
    assert ([LBRACKET] + s)[1..] == s;
    hide ParseItems;
    hide SkipWs;
    hide ParseObject;
    hide ParseString;
    hide ParseNumber;
  }

  lemma ObjectIs(s: bytes)
    requires Opens(SkipWs(s))
    ensures ParseValue([LBRACE] + s) == match ParseMembers(s) case None => None case Some((ms, rest)) => Some((JObj(ms), rest))
  {
    SkipSolid([LBRACE] + s);
    assert ([LBRACE] + s)[1..] == s;
    hide ParseMembers;
    hide SkipWs;
    hide ParseArray;
    hide ParseString;
    hide ParseNumber;
  }

  lemma EmptyArray(s: bytes, tail: bytes)
    requires SkipWs(s) == [RBRACKET] + tail
    ensures ParseValue([LBRACKET] + s) == Some((JArr(JNoItems), tail))
  {
    SkipSolid([LBRACKET] + s);
    assert ([LBRACKET] + s)[1..] == s && ([RBRACKET] + tail)[1..] == tail;
    hide ParseItems;
    hide SkipWs;
    hide ParseObject;
    hide ParseString;
    hide ParseNumber;
  }

  lemma EmptyObject(s: bytes, tail: bytes)
    requires SkipWs(s) == [RBRACE] + tail
    ensures ParseValue([LBRACE] + s) == Some((JObj(JNoMembers), tail))
  {
    SkipSolid([LBRACE] + s);
    assert ([LBRACE] + s)[1..] == s && ([RBRACE] + tail)[1..] == tail;
    hide ParseMembers;
    hide SkipWs;
    hide ParseArray;
    hide ParseString;
    hide ParseNumber;
  }

  lemma ColonSolid(x: bytes)
    ensures var after := [COLON] + ([SPACE] + x); [COLON, SPACE] + x == after && SkipWs(after) == after
  {
    SkipSolid([COLON] + ([SPACE] + x));
  }

  /** A member is its key, the separator and its value. */
  lemma MemberIs(members: Members, depth: int, indent: int, close: bytes, x: bytes)
    requires !members.NoMembers?
    requires var t := MembersText(members.rest, true, depth, indent, close);
             x == if members.Pair? then Text(members.v, false, depth, indent, t) else TripleText(members.x, members.y, members.z, t)
    ensures var after := [COLON] + ([SPACE] + x);
            && MemberText(members, depth, indent, close) == Escaped(members.key, after)
            && SkipWs(after) == after
  {
    hide Escaped;
    hide Text;
    hide TripleText;
    hide MembersText;
    hide SkipWs;
    ColonSolid(x);
  }

  lemma SeenMember(members: Members)
    requires !members.NoMembers?
    ensures var ok := if members.Pair? then Clean(members.v) else CleanFloat(members.x) && CleanFloat(members.y) && CleanFloat(members.z);
            var v := if members.Pair? then Seen(members.v) else SeenTriple(members.x, members.y, members.z);
            && CleanMembers(members) == (members.key.Some? && ok && CleanMembers(members.rest))
            && SeenMembers(members) == JPair(KeyOf(members.key), v, SeenMembers(members.rest))
            && (members.rest.NoMembers? ==> CleanMembers(members.rest) && SeenMembers(members.rest) == JNoMembers)
  {
  }

  lemma KeyIs(key: Option<bytes>)
    requires key.Some?
    ensures KeyOf(key) == key.value
  {
  }

  lemma MembersRead(members: Members, depth: int, indent: int, close: bytes, tail: bytes)
    requires !members.NoMembers? && SkipWs(close) == [RBRACE] + tail && Stops(close)
    ensures Opens(SkipWs(Indent(depth, indent) + MemberText(members, depth, indent, close)))
    ensures ParseMembers(Indent(depth, indent) + MemberText(members, depth, indent, close)) ==
            Read(CleanMembers(members), SeenMembers(members), tail)
    decreases members, 1
  {
    hide *;
    var t := MembersText(members.rest, true, depth, indent, close);
    var x := if members.Pair? then Text(members.v, false, depth, indent, t) else TripleText(members.x, members.y, members.z, t);
    var y := [SPACE] + x;
    var after := [COLON] + y;
    var s := Indent(depth, indent) + MemberText(members, depth, indent, close);
    MemberIs(members, depth, indent, close, x);
    MembersTail(members.rest, depth, indent, close);
    StringReads(members.key, after);
    StringRoundTrip(members.key, after);
    OpensSolid(Escaped(members.key, after));
    SkipIndent(depth, indent, Escaped(members.key, after));
    SeenMember(members);
    ReadMap(CleanMembers(members), SeenMembers(members), tail);
    if members.key.None? {
      NoKey(s);
    } else {
      KeyIs(members.key);
      MemberValue(members, depth, indent, t);
      if members.Pair? {
        ReadMap(Clean(members.v), Seen(members.v), t);
      } else {
        ReadMap(CleanFloat(members.x) && CleanFloat(members.y) && CleanFloat(members.z), SeenTriple(members.x, members.y, members.z), t);
      }
      if members.rest.NoMembers? {
        MembersStep(s, members.key.value, after, y, ParseValue(y), tail);
      } else {
        MembersStep(s, members.key.value, after, y, ParseValue(y), Indent(depth, indent) + MemberText(members.rest, depth, indent, close));
        MembersRead(members.rest, depth, indent, close, tail);
        ReadMap(CleanMembers(members.rest), SeenMembers(members.rest), tail);
      }
    }
  }

  lemma CloseReads(depth: int, indent: int, c: byte, tail: bytes)
    requires c == RBRACE || c == RBRACKET
    ensures SkipWs(Indent(depth, indent) + ([c] + tail)) == [c] + tail && Stops(Indent(depth, indent) + ([c] + tail))
  {
    SkipIndent(depth, indent, [c] + tail);
    IndentStops(depth, indent, [c] + tail);
  }

  lemma ArrayReads(items: Items, depth: int, indent: int, tail: bytes)
    ensures ParseValue(Bare(Arr(items), depth, indent, tail)) == Read(CleanItems(items), JArr(SeenItems(items)), tail)
    decreases items, 3
  {
    hide *;
    var close := Indent(depth, indent) + ([RBRACKET] + tail);
    CloseReads(depth, indent, RBRACKET, tail);
    ArrayText(items, depth, indent, tail);
    if items.NoItems? {
      EmptyArray(close, tail);
      ReadMap(true, JArr(JNoItems), tail);
    } else {
      var t := ItemsText(items.rest, true, depth + 1, indent, close);
      var b := Bare(items.v, depth + 1, indent, t);
      var s := Indent(depth + 1, indent) + b;
      ItemsTail(items.rest, depth + 1, indent, close);
      SkipIndent(depth + 1, indent, b);
      ValueReads(items.v, depth + 1, indent, t);
      OpensSolid(b);
      ArrayIs(s);
      ItemsRead(items, depth + 1, indent, close, tail);
      ReadMap(CleanItems(items), SeenItems(items), tail);
      ReadMap(CleanItems(items), JArr(SeenItems(items)), tail);
    }
  }

  lemma ArrayText(items: Items, depth: int, indent: int, tail: bytes)
    ensures var close := Indent(depth, indent) + ([RBRACKET] + tail);
            Bare(Arr(items), depth, indent, tail) == [LBRACKET] +
            match items
            case NoItems => close
            case Item(v, rest) => Indent(depth + 1, indent) + Bare(v, depth + 1, indent, ItemsText(rest, true, depth + 1, indent, close))
    ensures items.NoItems? ==> CleanItems(items) && SeenItems(items) == JNoItems
  {
    if items.Item? {
      var close := Indent(depth, indent) + ([RBRACKET] + tail);
      var b := Bare(items.v, depth + 1, indent, ItemsText(items.rest, true, depth + 1, indent, close));
      hide Indent;
      assert ItemsText(items, false, depth + 1, indent, close) == Indent(depth + 1, indent) + b by {
        Concat([], Indent(depth + 1, indent), b);
      }
    }
  }

  lemma OpensSolid(b: bytes)
    requires Opens(b)
    ensures SkipWs(b) == b
  {
  }

  lemma ReadMap<T>(ok: bool, x: T, tail: bytes)
    ensures Read(ok, x, tail) == if ok then Some((x, tail)) else None
  {
  }

  lemma ObjectReads(members: Members, depth: int, indent: int, tail: bytes)
    ensures ParseValue(Bare(Obj(members), depth, indent, tail)) == Read(CleanMembers(members), JObj(SeenMembers(members)), tail)
    decreases members, 3
  {
    var close := Indent(depth, indent) + ([RBRACE] + tail);
    CloseReads(depth, indent, RBRACE, tail);
    if members.NoMembers? {
      EmptyObject(close, tail);
    } else {
      var m := MemberText(members, depth + 1, indent, close);
      var s := Indent(depth + 1, indent) + m;
      assert MembersText(members, false, depth + 1, indent, close) == s by { Concat([], Indent(depth + 1, indent), m); }
      assert Bare(Obj(members), depth, indent, tail) == [LBRACE] + s;
      hide ParseMembers;
      hide ParseValue;
      hide MembersText;
      hide MemberText;
      hide Indent;
      hide SkipWs;
      hide Opens;
      MembersRead(members, depth + 1, indent, close, tail);
      ObjectIs(s);
    }
  }

  /** A value's text is read back as the value, leaving what follows; or refused. */
  lemma ValueReads(v: Value, depth: int, indent: int, tail: bytes)
    requires Stops(tail)
    ensures Opens(Bare(v, depth, indent, tail))
    ensures ParseValue(Bare(v, depth, indent, tail)) == Read(Clean(v), Seen(v), tail)
    decreases v, 4
  {
    hide ParseValue;
    hide Escaped;
    hide IntText;
    hide FloatText;
    hide ItemsText;
    hide MembersText;
    match v
    case Obj(members) => ObjectReads(members, depth, indent, tail);
    case Arr(items) => ArrayReads(items, depth, indent, tail);
    case Str(s) => StringReads(s, tail);
    case Int(n) => IntReads(n, tail);
    case Flt(f) => FloatReads(f, tail);
    case _ => WordReads(v, depth, indent, tail);
  }

  /** For every value tree, in any indent mode, the text parses back to the tree as a reader should
      see it, exactly when no key is NULL and every float is finite. */
  lemma JsonRoundTrips(v: Value, indent: int)
    ensures Parse(Text(v, false, 0, indent, [])) == if Clean(v) then Some(Seen(v)) else None
  {
    var b := Bare(v, 0, indent, []);
    assert Text(v, false, 0, indent, []) == Indent(0, indent) + b by { Concat([], Indent(0, indent), b); }
    hide Text;
    hide Bare;
    hide ParseValue;
    hide Indent;
    SkipIndent(0, indent, b);
    ParseSkips(Indent(0, indent) + b, b);
    ValueReads(v, 0, indent, []);
  }

  // ---- compact mode ----

  predicate OneLine(s: bytes) {
    NEWLINE !in s
  }

  lemma {:induction false} DigitsOneLine(n: nat)
    ensures OneLine(Digits(n))
  {
    if n >= 10 { DigitsOneLine(n / 10); }
  }

  lemma {:induction false} PaddedOneLine(n: nat, k: nat)
    ensures OneLine(Padded(n, k))
    decreases k
  {
    if k > 0 { PaddedOneLine(n / 10, k - 1); }
  }

  lemma FloatOneLine(f: Float)
    ensures OneLine(FloatText(f))
  {
    if f.Fixed? {
      DigitsOneLine(Whole(f.scaled, Places(f.dec)));
      PaddedOneLine(f.scaled, Places(f.dec));
      hide Digits;
      hide Padded;
    }
  }

  lemma {:induction false} EscapedOneLine(s: bytes, tail: bytes)
    requires OneLine(tail)
    ensures OneLine(EscapedChars(s, tail))
    decreases |s|
  {
    if |s| > 0 {
      EscapedOneLine(s[1..], tail);
      assert OneLine(EscapedChar(s[0]));
      hide EscapedChar;
      hide EscapedChars;
    }
  }

  lemma StringOneLine(s: Option<bytes>, tail: bytes)
    requires OneLine(tail)
    ensures OneLine(Escaped(s, tail))
  {
    if s.Some? { EscapedOneLine(s.value, [QUOTE] + tail); }
  }

  lemma TripleOneLine(x: Float, y: Float, z: Float, tail: bytes)
    requires OneLine(tail)
    ensures OneLine(TripleText(x, y, z, tail))
  {
    FloatOneLine(x);
    FloatOneLine(y);
    FloatOneLine(z);
    hide FloatText;
  }

  lemma ItemsOneLine(items: Items, comma: bool, depth: int, indent: int, tail: bytes)
    requires indent <= 0 && OneLine(tail)
    ensures OneLine(ItemsText(items, comma, depth, indent, tail))
    decreases items, 2
  {
    if items.Item? {
      ItemsOneLine(items.rest, true, depth, indent, tail);
      ValueOneLine(items.v, depth, indent, ItemsText(items.rest, true, depth, indent, tail));
      hide Bare;
    }
  }

  lemma MembersOneLine(members: Members, comma: bool, depth: int, indent: int, tail: bytes)
    requires indent <= 0 && OneLine(tail)
    ensures OneLine(MembersText(members, comma, depth, indent, tail))
    decreases members, 2
  {
    if !members.NoMembers? {
      var t := MembersText(members.rest, true, depth, indent, tail);
      MembersOneLine(members.rest, true, depth, indent, tail);
      if members.Pair? {
        ValueOneLine(members.v, depth, indent, t);
        StringOneLine(members.key, [COLON, SPACE] + Text(members.v, false, depth, indent, t));
      } else {
        TripleOneLine(members.x, members.y, members.z, t);
        StringOneLine(members.key, [COLON, SPACE] + TripleText(members.x, members.y, members.z, t));
      }
      hide Escaped;
      hide Bare;
      hide TripleText;
    }
  }

  lemma ValueOneLine(v: Value, depth: int, indent: int, tail: bytes)
    requires indent <= 0 && OneLine(tail)
    ensures OneLine(Bare(v, depth, indent, tail))
    decreases v, 1
  {
    match v
    case Obj(members) =>
      MembersOneLine(members, false, depth + 1, indent, Indent(depth, indent) + ([RBRACE] + tail));
    case Arr(items) =>
      ItemsOneLine(items, false, depth + 1, indent, Indent(depth, indent) + ([RBRACKET] + tail));
    case Str(s) => StringOneLine(s, tail);
    case Int(n) => DigitsOneLine(if n < 0 then -n else n);
    case Flt(f) => FloatOneLine(f);
    case _ =>
  }

  /** Compact mode never emits a newline, so a record stays on one line. */
  lemma CompactIsOneLine(v: Value, indent: int)
    requires indent <= 0
    ensures OneLine(Text(v, false, 0, indent, []))
  {
    ValueOneLine(v, 0, indent, []);
    hide Bare;
  }
}
