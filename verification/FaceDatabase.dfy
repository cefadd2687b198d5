/** The face database (src/arcface_recognizer.c): registration, deletion, and the text file that saving
    writes and loading searches for keys. The file is JSON by its looks only: the loader looks for
    the next identity key, takes the quoted text behind it, looks for the next feature key, takes
    the numbers behind its bracket, and goes on behind the bracket that closes them. */
module FaceDatabase {
  import opened Bytes
  import opened JsonText
  import opened JsonRoundTrip

  const DIM := 128
  const MAX_FACES := 256
  const MAX_STRING_LEN := 32
  const FILE_LIMIT := 4194304
  const DECIMALS := 8
  const NUL: byte := 0

  /** Features are kept to eight decimals, as the file holds them. */
  datatype Entry = Entry(identity: bytes, feature: seq<Number>, active: bool)
  type Db = seq<Entry>

  // ---- registration ----

  function Stored(id: bytes): (s: bytes)
    ensures |s| < MAX_STRING_LEN
  {
    if |id| < MAX_STRING_LEN then id else id[..MAX_STRING_LEN - 1]
  }

  function FindEntry(db: Db, id: bytes, i: nat): (r: nat)
    requires i <= |db|
    ensures i <= r <= |db|
    ensures r < |db| ==> db[r].active && db[r].identity == id
    ensures forall k :: i <= k < r ==> !(db[k].active && db[k].identity == id)
    decreases |db| - i
  {
    if i == |db| || (db[i].active && db[i].identity == id) then i else FindEntry(db, id, i + 1)
  }

  function Registered(db: Db, id: bytes, feature: seq<Number>): (r: (Db, bool)) {
    if |db| >= MAX_FACES then (db, false)
    else
      var i := FindEntry(db, id, 0);
      if i < |db| then (db[i := db[i].(feature := feature, active := true)], true)
      else (db + [Entry(Stored(id), feature, true)], true)
  }

  function Deleted(db: Db, id: bytes): (r: (Db, bool)) {
    var i := FindEntry(db, id, 0);
    if i < |db| then (db[i := db[i].(active := false)], true) else (db, false)
  }

  function Active(db: Db): (r: Db)
    ensures forall e :: e in r ==> e.active && e in db
    ensures |r| <= |db|
  {
    if |db| == 0 then [] else (if db[0].active then [db[0]] else []) + Active(db[1..])
  }

  function Ten(k: nat): (n: nat)
    ensures n > 0
  {
    if k == 0 then 1 else 10 * Ten(k - 1)
  }

  /** A 32-bit float to eight decimals: its integer part has 39 digits at most. */
  ghost predicate FixedPoint(v: Number) {
    v.places == DECIMALS && v.exponent == 0 && Whole(v.scaled, DECIMALS) < Ten(39)
  }

  /** An identity is a C string that fits its buffer. */
  ghost predicate ValidEntry(e: Entry) {
    && |e.identity| < MAX_STRING_LEN && NUL !in e.identity
    && |e.feature| == DIM && forall v :: v in e.feature ==> FixedPoint(v)
  }

  /** Active entries have identities of their own. */
  ghost predicate Distinct(db: Db) {
    forall i, j :: 0 <= i < j < |db| && db[i].active && db[j].active ==> db[i].identity != db[j].identity
  }

  ghost predicate Kept(db: Db) {
    |db| <= MAX_FACES && (forall e :: e in db ==> ValidEntry(e)) && Distinct(db)
  }

  // ---- the text ----

  const IDENTITY: bytes := [34, 105, 100, 101, 110, 116, 105, 116, 121, 34, 58]
  const FEATURE: bytes := [34, 102, 101, 97, 116, 117, 114, 101, 34, 58]

  /** {, version 1, entries [ */
  const HEADER: bytes := [123, 10, 32, 32, 34, 118, 101, 114, 115, 105, 111, 110, 34, 58, 32, 49, 44, 10,
                          32, 32, 34, 101, 110, 116, 114, 105, 101, 115, 34, 58, 32, 91, 10]
  const FOOTER: bytes := [10, 32, 32, 93, 10, 125, 10]
  const OPEN: bytes := [32, 32, 32, 32, 123, 10, 32, 32, 32, 32, 32, 32]
  const BEFORE_ID: bytes := [32, 34]
  const AFTER_ID: bytes := [44, 10, 32, 32, 32, 32, 32, 32]
  const BEFORE_FEATURE: bytes := [32, 91]
  const CLOSE: bytes := [10, 32, 32, 32, 32, 125]
  const BETWEEN: bytes := [44, 10]

  function EscapedId(s: bytes, tail: bytes): (t: bytes) {
    if |s| == 0 then tail
    else (if s[0] == BACKSLASH || s[0] == QUOTE then [BACKSLASH, s[0]] else [s[0]]) + EscapedId(s[1..], tail)
  }

  /** printf's %.8f. */
  function NumberText(v: Number): (s: bytes) {
    Sign(v.negative) + (Digits(Whole(v.scaled, DECIMALS)) + ([DOT] + Padded(v.scaled, DECIMALS)))
  }

  function FeatureText(fs: seq<Number>, tail: bytes): (s: bytes) {
    if |fs| == 0 then tail
    else NumberText(fs[0]) + if |fs| == 1 then tail else [COMMA, SPACE] + FeatureText(fs[1..], tail)
  }

  /** From behind the identity's closing quote to the end of the entry. */
  function FeaturePart(fs: seq<Number>, tail: bytes): (s: bytes) {
    AFTER_ID + (FEATURE + (BEFORE_FEATURE + FeatureText(fs, [RBRACKET] + (CLOSE + tail))))
  }

  function EntryText(e: Entry, tail: bytes): (s: bytes) {
    OPEN + (IDENTITY + (BEFORE_ID + EscapedId(e.identity, [QUOTE] + FeaturePart(e.feature, tail))))
  }

  function EntriesText(es: Db, tail: bytes): (s: bytes) {
    if |es| == 0 then tail
    else EntryText(es[0], if |es| == 1 then tail else BETWEEN + EntriesText(es[1..], tail))
  }

  function Saved(db: Db): (s: bytes) {
    HEADER + EntriesText(Active(db), FOOTER)
  }

  // ---- searching; a NUL ends a C string, also in the middle of the file ----

  /** strstr: from the first occurrence on. */
  function Find(s: bytes, pattern: bytes): (r: Option<bytes>)
    requires |pattern| > 0
    ensures r.Some? ==> pattern <= r.value && |r.value| <= |s|
  {
    if |s| < |pattern| || s[0] == NUL then None else if pattern <= s then Some(s) else Find(s[1..], pattern)
  }

  /** strchr: from the first occurrence on. */
  function FindChar(s: bytes, c: byte): (r: Option<bytes>)
    ensures r.Some? ==> |r.value| > 0 && r.value[0] == c && |r.value| <= |s|
  {
    if |s| == 0 || s[0] == NUL then None else if s[0] == c then Some(s) else FindChar(s[1..], c)
  }

  /** An identity of at most `room` characters and what is left, from the closing quote or NUL on. */
  function ReadIdentity(s: bytes, room: nat): (r: (bytes, bytes))
    ensures |r.0| <= room && |r.1| <= |s|
    decreases |s|
  {
    if |s| == 0 || s[0] == NUL || s[0] == QUOTE || room == 0 then ([], s)
    else if s[0] == BACKSLASH && |s| > 1 && s[1] != NUL then
      var (id, rest) := ReadIdentity(s[2..], room - 1);
      ([s[1]] + id, rest)
    else
      var (id, rest) := ReadIdentity(s[1..], room - 1);
      ([s[0]] + id, rest)
  }

  predicate IsSeparator(c: byte) {
    c == 32 || c == 9 || c == 10 || c == 13 || c == COMMA
  }

  function SkipSeparators(s: bytes): (t: bytes)
    ensures |t| <= |s|
  {
    if |s| > 0 && IsSeparator(s[0]) then SkipSeparators(s[1..]) else s
  }

  /** The exponent, taken only when it has digits. */
  function StrtofExponent(s: bytes): (r: (int, bytes))
    ensures |r.1| <= |s|
  {
    match ParseExponent(s) case None => (0, s) case Some((e, rest)) => (e, rest)
  }

  /** strtof on decimal numbers. */
  function Strtof(s: bytes): (r: Option<(Number, bytes)>)
    ensures r.Some? ==> |r.value.1| < |s|
  {
    var signed := |s| > 0 && (s[0] == MINUS || s[0] == 43);
    var t := if signed then s[1..] else s;
    var n := DigitRun(t);
    var u := t[n..];
    var point := |u| > 0 && u[0] == DOT;
    var k := if point then DigitRun(u[1..]) else 0;
    if n + k == 0 then None
    else
      var (e, rest) := StrtofExponent(if point then u[1 + k..] else u);
      Some((Number(signed && s[0] == MINUS, Decimal(t[..n] + if point then u[1..1 + k] else []), k, e), rest))
  }

  const NOTHING := Number(false, 0, 0, 0)

  /** Up to `n` numbers; one that does not parse counts as zero and ends the list. */
  function ReadFeature(s: bytes, n: nat): (r: (seq<Number>, bytes))
    ensures |r.0| <= n && |r.1| <= |s|
    decreases n
  {
    if n == 0 || |s| == 0 || s[0] == NUL then ([], s)
    else
      var u := SkipSeparators(s);
      if |u| == 0 || u[0] == NUL || u[0] == RBRACKET then ([], u)
      else match Strtof(u)
        case None => ([NOTHING], u)
        case Some((v, rest)) =>
          var (fs, rest') := ReadFeature(rest, n - 1);
          ([v] + fs, rest')
  }

  /** One round of the loader: what it registers, and where it goes on; None when it stops. */
  datatype Round = Stop(db: Db, count: nat) | Go(db: Db, count: nat, p: bytes)

  function LoadFeature(db: Db, count: nat, id: bytes, p: bytes): (r: Round)
    ensures r.Go? ==> |r.p| < |p|
  {
    match Find(p, FEATURE)
    case None => Stop(db, count)
    case Some(u) =>
      match FindChar(u[|FEATURE|..], LBRACKET)
      case None => Stop(db, count)
      case Some(w) =>
        var (fs, rest) := ReadFeature(w[1..], DIM);
        var (db', ok) := if |fs| == DIM then Registered(db, id, fs) else (db, false);
        var count' := if ok then count + 1 else count;
        match FindChar(rest, RBRACKET)
        case None => Stop(db', count')
        case Some(v) => Go(db', count', v[1..])
  }

  function LoadRound(db: Db, count: nat, p: bytes): (r: Round)
    ensures r.Go? ==> |r.p| < |p|
  {
    match Find(p, IDENTITY)
    case None => Stop(db, count)
    case Some(u) =>
      match FindChar(u[|IDENTITY|..], QUOTE)
      case None => Stop(db, count)
      case Some(w) =>
        var (id, rest) := ReadIdentity(w[1..], MAX_STRING_LEN - 1);
        if |rest| == 0 then Stop(db, count)
        else if id == [] then Go(db, count, rest[1..])
        else LoadFeature(db, count, id, rest[1..])
  }

  function Load(db: Db, count: nat, p: bytes): (r: (Db, nat))
    decreases |p|
  {
    if |p| == 0 || p[0] == NUL then (db, count)
    else match LoadRound(db, count, p)
      case Stop(db', count') => (db', count')
      case Go(db', count', q) => Load(db', count', q)
  }

  /** Loading a file. */
  function Loaded(db: Db, file: bytes): (r: (Db, bool)) {
    if |file| == 0 || |file| > FILE_LIMIT then (db, false)
    else
      var (db', count) := Load(db, 0, file);
      (db', count > 0)
  }
}
