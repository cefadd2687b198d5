/** JSON text (RFC 8259, sections 2 to 7) as octets: what the streaming writer emits for a tree of
    values (src/json_writer.c), and a parser for the whole grammar. The parser is independent of the
    writer: it takes any white space between tokens, all escapes, fractions and exponents, and
    refuses whatever the grammar refuses. Texts are written in front of what follows them, so that
    a value can be read back out of the middle of a document. */
module JsonText {
  import opened Bytes

  const QUOTE: byte := 34
  const COMMA: byte := 44
  const MINUS: byte := 45
  const DOT: byte := 46
  const ZERO: byte := 48
  const COLON: byte := 58
  const LBRACKET: byte := 91
  const BACKSLASH: byte := 92
  const RBRACKET: byte := 93
  const LBRACE: byte := 123
  const RBRACE: byte := 125
  const SPACE: byte := 32
  const NEWLINE: byte := 10

  const NULL: bytes := [110, 117, 108, 108]
  const TRUE: bytes := [116, 114, 117, 101]
  const FALSE: bytes := [102, 97, 108, 115, 101]

  // ---- trees driven through the writer ----

  /** The arguments of the writer calls. A string or key may be NULL. A float is given as printf
      rounds it: sign, digits as one number, and the requested decimals; one that is not finite
      by the text printf makes of it. */
  datatype Float = Fixed(negative: bool, scaled: nat, dec: int) | NotFinite(negative: bool, nan: bool)

  datatype Value =
    | Obj(members: Members)
    | Arr(items: Items)
    | Str(s: Option<bytes>)
    | Int(v: int)
    | Flt(f: Float)
    | Bool(b: bool)
    | Null

  datatype Items = NoItems | Item(v: Value, rest: Items)
  datatype Members =
    | NoMembers
    | Pair(key: Option<bytes>, v: Value, rest: Members)
    | Triple(key: Option<bytes>, x: Float, y: Float, z: Float, rest: Members)

  // ---- numbers ----

  function Digits(n: nat): (ds: bytes)
    ensures |ds| > 0
  {
    if n < 10 then [ZERO as int + n] else Digits(n / 10) + [ZERO as int + n % 10]
  }

  /** The number with its last `k` digits dropped, and those digits. */
  function Whole(n: nat, k: nat): (r: nat) {
    if k == 0 then n else Whole(n / 10, k - 1)
  }

  function Padded(n: nat, k: nat): (ds: bytes)
    ensures |ds| == k
  {
    if k == 0 then [] else Padded(n / 10, k - 1) + [ZERO as int + n % 10]
  }

  /** printf takes a negative precision as none given: six places. */
  function Places(dec: int): (n: nat) {
    if dec < 0 then 6 else dec
  }

  function Sign(negative: bool): (s: bytes) {
    if negative then [MINUS] else []
  }

  function IntText(v: int): (s: bytes) {
    if v < 0 then [MINUS] + Digits(-v) else Digits(v)
  }

  function FloatText(f: Float): (s: bytes) {
    match f
    case Fixed(negative, scaled, dec) =>
      var k := Places(dec);
      Sign(negative) + (Digits(Whole(scaled, k)) + if k == 0 then [] else [DOT] + Padded(scaled, k))
    case NotFinite(negative, nan) => Sign(negative) + if nan then [110, 97, 110] else [105, 110, 102]
  }

  // ---- strings ----

  function HexDigit(n: nat): (r: byte)
    requires n < 16
  {
    if n < 10 then 48 + n else 87 + n
  }

  function EscapedChar(c: byte): (s: bytes) {
    if c == QUOTE then [BACKSLASH, QUOTE]
    else if c == BACKSLASH then [BACKSLASH, BACKSLASH]
    else if c == 8 then [BACKSLASH, 98]
    else if c == 12 then [BACKSLASH, 102]
    else if c == 10 then [BACKSLASH, 110]
    else if c == 13 then [BACKSLASH, 114]
    else if c == 9 then [BACKSLASH, 116]
    else if c < 32 then [BACKSLASH, 117, 48, 48, HexDigit(c / 16), HexDigit(c % 16)]
    else [c]
  }

  function EscapedChars(s: bytes, tail: bytes): (t: bytes) {
    if |s| == 0 then tail else EscapedChar(s[0]) + EscapedChars(s[1..], tail)
  }

  function Escaped(s: Option<bytes>, tail: bytes): (t: bytes) {
    if s.None? then NULL + tail else [QUOTE] + EscapedChars(s.value, [QUOTE] + tail)
  }

  // ---- layout; each function gives its text followed by `tail` ----

  function Spaces(n: int): (s: bytes) {
    if n <= 0 then [] else Spaces(n - 1) + [SPACE]
  }

  function Indent(depth: int, indent: int): (s: bytes) {
    if indent <= 0 then [] else [NEWLINE] + Spaces(depth * indent)
  }

  function Lead(comma: bool, depth: int, indent: int): (s: bytes) {
    (if comma then [COMMA] else []) + Indent(depth, indent)
  }

  function Text(v: Value, comma: bool, depth: int, indent: int, tail: bytes): (s: bytes)
    decreases v, 1
  {
    Lead(comma, depth, indent) + Bare(v, depth, indent, tail)
  }

  function Bare(v: Value, depth: int, indent: int, tail: bytes): (s: bytes)
    decreases v, 0
  {
    match v
    case Obj(members) => [LBRACE] + MembersText(members, false, depth + 1, indent, Indent(depth, indent) + ([RBRACE] + tail))
    case Arr(items) => [LBRACKET] + ItemsText(items, false, depth + 1, indent, Indent(depth, indent) + ([RBRACKET] + tail))
    case Str(s) => Escaped(s, tail)
    case Int(n) => IntText(n) + tail
    case Flt(f) => FloatText(f) + tail
    case Bool(b) => (if b then TRUE else FALSE) + tail
    case Null => NULL + tail
  }

  function ItemsText(items: Items, comma: bool, depth: int, indent: int, tail: bytes): (s: bytes)
    decreases items, 2
  {
    match items
    case NoItems => tail
    case Item(v, rest) => Text(v, comma, depth, indent, ItemsText(rest, true, depth, indent, tail))
  }

  function KeyText(key: Option<bytes>, tail: bytes): (s: bytes) {
    Escaped(key, [COLON, SPACE] + tail)
  }

  function TripleText(x: Float, y: Float, z: Float, tail: bytes): (s: bytes) {
    [LBRACKET] + (FloatText(x) + ([COMMA, SPACE] + (FloatText(y) + ([COMMA, SPACE] + (FloatText(z) + ([RBRACKET] + tail))))))
  }

  function MembersText(members: Members, comma: bool, depth: int, indent: int, tail: bytes): (s: bytes)
    decreases members, 2
  {
    match members
    case NoMembers => tail
    case Pair(key, v, rest) =>
      Lead(comma, depth, indent) + KeyText(key, Text(v, false, depth, indent, MembersText(rest, true, depth, indent, tail)))
    case Triple(key, x, y, z, rest) =>
      Lead(comma, depth, indent) + KeyText(key, TripleText(x, y, z, MembersText(rest, true, depth, indent, tail)))
  }

  // ---- a parser ----

  datatype Json =
    | JObj(members: JMembers)
    | JArr(items: JItems)
    | JStr(s: bytes)
    | JNum(n: Number)
    | JBool(b: bool)
    | JNull

  datatype JItems = JNoItems | JItem(v: Json, rest: JItems)
  datatype JMembers = JNoMembers | JPair(key: bytes, v: Json, rest: JMembers)

  /** (-1)^negative * scaled * 10^(exponent - places). */
  datatype Number = Number(negative: bool, scaled: nat, places: nat, exponent: int)

  predicate IsWs(c: byte) {
    c == 32 || c == 9 || c == 10 || c == 13
  }

  function SkipWs(s: bytes): (t: bytes)
    ensures |t| <= |s|
  {
    if |s| > 0 && IsWs(s[0]) then SkipWs(s[1..]) else s
  }

  predicate IsDigit(c: byte) {
    48 <= c <= 57
  }

  /** How many digits come first. */
  function DigitRun(s: bytes): (n: nat)
    ensures n <= |s|
  {
    if |s| > 0 && IsDigit(s[0]) then 1 + DigitRun(s[1..]) else 0
  }

  function Decimal(ds: bytes): (n: nat)
    decreases |ds|
  {
    if |ds| == 0 then 0
    else
      var d := ds[|ds| - 1];
      Decimal(ds[..|ds| - 1]) * 10 + if IsDigit(d) then d - 48 else 0
  }

  /** An optional exponent behind a number. */
  function ParseExponent(s: bytes): (r: Option<(int, bytes)>)
    ensures r.Some? ==> |r.value.1| <= |s|
  {
    if |s| == 0 || (s[0] != 101 && s[0] != 69) then Some((0, s))
    else
      var signed := |s| > 1 && (s[1] == 43 || s[1] == MINUS);
      var t := if signed then s[2..] else s[1..];
      var n := DigitRun(t);
      if n == 0 then None
      else Some((if signed && s[1] == MINUS then -(Decimal(t[..n]) as int) else Decimal(t[..n]), t[n..]))
  }

  /** The digits before the point: a zero alone, or a run that begins with another digit. */
  function ParseDigits(s: bytes): (r: Option<(bytes, bytes)>)
    ensures r.Some? ==> |r.value.1| < |s|
  {
    var run := DigitRun(s);
    if run == 0 then None
    else
      var n := if s[0] == ZERO then 1 else run;
      Some((s[..n], s[n..]))
  }

  /** The digits behind an optional point. */
  function ParseFraction(s: bytes): (r: Option<(bytes, bytes)>)
    ensures r.Some? ==> |r.value.1| <= |s|
  {
    if |s| == 0 || s[0] != DOT then Some(([], s))
    else
      var n := DigitRun(s[1..]);
      if n == 0 then None else Some((s[1..1 + n], s[1 + n..]))
  }

  function ParseNumber(s: bytes): (r: Option<(Number, bytes)>)
    ensures r.Some? ==> |r.value.1| < |s|
  {
    var negative := |s| > 0 && s[0] == MINUS;
    match ParseDigits(if negative then s[1..] else s)
    case None => None
    case Some((ds, u)) =>
      match ParseFraction(u)
      case None => None
      case Some((ps, v)) =>
        match ParseExponent(v)
        case None => None
        case Some((e, rest)) => Some((Number(negative, Decimal(ds + ps), |ps|, e), rest))
  }

  function HexValue(c: byte): (r: Option<nat>) {
    if 48 <= c <= 57 then Some(c - 48)
    else if 97 <= c <= 102 then Some(c - 87)
    else if 65 <= c <= 70 then Some(c - 55)
    else None
  }

  /** The octets of a code point below 65536. */
  function Utf8(u: nat): (s: bytes)
    requires u < 0x1_0000
  {
    if u < 0x80 then [u]
    else if u < 0x800 then [192 + u / 64, 128 + u % 64]
    else [224 + u / 4096, 128 + u / 64 % 64, 128 + u % 64]
  }

  /** One character of a string behind its opening quote: its octets and what follows. */
  function ParseChar(s: bytes): (r: Option<(bytes, bytes)>)
    requires |s| > 0
    ensures r.Some? ==> |r.value.1| < |s|
  {
    if s[0] < 32 then None
    else if s[0] != BACKSLASH then Some(([s[0]], s[1..]))
    else if |s| < 2 then None
    else if s[1] == QUOTE || s[1] == BACKSLASH || s[1] == 47 then Some(([s[1]], s[2..]))
    else if s[1] == 98 then Some(([8], s[2..]))
    else if s[1] == 102 then Some(([12], s[2..]))
    else if s[1] == 110 then Some(([10], s[2..]))
    else if s[1] == 114 then Some(([13], s[2..]))
    else if s[1] == 116 then Some(([9], s[2..]))
    else if s[1] == 117 && |s| >= 6 then
      match (HexValue(s[2]), HexValue(s[3]), HexValue(s[4]), HexValue(s[5]))
      case (Some(a), Some(b), Some(c), Some(d)) =>
        if a < 16 && b < 16 && c < 16 && d < 16 then Some((Utf8(a * 4096 + b * 256 + c * 16 + d), s[6..])) else None
      case _ => None
    else None
  }

  function ParseChars(s: bytes): (r: Option<(bytes, bytes)>)
    ensures r.Some? ==> |r.value.1| < |s|
    decreases |s|
  {
    if |s| == 0 then None
    else if s[0] == QUOTE then Some(([], s[1..]))
    else match ParseChar(s)
      case None => None
      case Some((c, rest)) =>
        match ParseChars(rest)
        case None => None
        case Some((cs, rest')) => Some((c + cs, rest'))
  }

  function ParseString(s: bytes): (r: Option<(bytes, bytes)>)
    ensures r.Some? ==> |r.value.1| < |s|
  {
    if |s| == 0 || s[0] != QUOTE then None else ParseChars(s[1..])
  }

  function ParseWord(s: bytes, word: bytes, v: Json): (r: Option<(Json, bytes)>)
    requires |word| > 0
    ensures r.Some? ==> |r.value.1| < |s|
  {
    if word <= s then Some((v, s[|word|..])) else None
  }

  function ParseValue(s: bytes): (r: Option<(Json, bytes)>)
    ensures r.Some? ==> |r.value.1| < |s|
    decreases |s|, 0
  {
    var t := SkipWs(s);
    if |t| == 0 then None
    else if t[0] == LBRACE then ParseObject(t)
    else if t[0] == LBRACKET then ParseArray(t)
    else if t[0] == QUOTE then
      (match ParseString(t) case None => None case Some((cs, rest)) => Some((JStr(cs), rest)))
    else if t[0] == MINUS || IsDigit(t[0]) then
      (match ParseNumber(t) case None => None case Some((n, rest)) => Some((JNum(n), rest)))
    else if t[0] == 116 then ParseWord(t, TRUE, JBool(true))
    else if t[0] == 102 then ParseWord(t, FALSE, JBool(false))
    else if t[0] == 110 then ParseWord(t, NULL, JNull)
    else None
  }

  function ParseObject(t: bytes): (r: Option<(Json, bytes)>)
    requires |t| > 0
    ensures r.Some? ==> |r.value.1| < |t|
    decreases |t| - 1, 3
  {
    var u := SkipWs(t[1..]);
    if |u| > 0 && u[0] == RBRACE then Some((JObj(JNoMembers), u[1..]))
    else match ParseMembers(t[1..])
      case None => None
      case Some((ms, rest)) => Some((JObj(ms), rest))
  }

  function ParseArray(t: bytes): (r: Option<(Json, bytes)>)
    requires |t| > 0
    ensures r.Some? ==> |r.value.1| < |t|
    decreases |t| - 1, 3
  {
    var u := SkipWs(t[1..]);
    if |u| > 0 && u[0] == RBRACKET then Some((JArr(JNoItems), u[1..]))
    else match ParseItems(t[1..])
      case None => None
      case Some((items, rest)) => Some((JArr(items), rest))
  }

  function ParseItems(s: bytes): (r: Option<(JItems, bytes)>)
    ensures r.Some? ==> |r.value.1| < |s|
    decreases |s|, 1
  {
    match ParseValue(s)
    case None => None
    case Some((v, rest)) =>
      var u := SkipWs(rest);
      if |u| == 0 then None
      else if u[0] == RBRACKET then Some((JItem(v, JNoItems), u[1..]))
      else if u[0] != COMMA then None
      else match ParseItems(u[1..])
        case None => None
        case Some((items, rest')) => Some((JItem(v, items), rest'))
  }

  function ParseMembers(s: bytes): (r: Option<(JMembers, bytes)>)
    ensures r.Some? ==> |r.value.1| < |s|
    decreases |s|, 1
  {
    match ParseString(SkipWs(s))
    case None => None
    case Some((key, after)) =>
      var c := SkipWs(after);
      if |c| == 0 || c[0] != COLON then None
      else match ParseValue(c[1..])
        case None => None
        case Some((v, rest)) =>
          var u := SkipWs(rest);
          if |u| == 0 then None
          else if u[0] == RBRACE then Some((JPair(key, v, JNoMembers), u[1..]))
          else if u[0] != COMMA then None
          else match ParseMembers(u[1..])
            case None => None
            case Some((ms, rest')) => Some((JPair(key, v, ms), rest'))
  }

  /** A whole JSON text: one value with nothing but white space around it. */
  function Parse(s: bytes): (r: Option<Json>) {
    match ParseValue(s)
    case None => None
    case Some((v, rest)) => if SkipWs(rest) == [] then Some(v) else None
  }
}
