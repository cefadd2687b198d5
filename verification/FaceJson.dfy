/** What a saved face database is to a JSON reader (src/arcface_recognizer.c). */
module FaceJson {
  import opened Bytes
  import opened JsonText
  import opened JsonRoundTrip
  import opened FaceDatabase

  // ---- the tree a reader should see ----

  /** "identity", "feature", "version" and "entries". */
  const ID_KEY: bytes := [105, 100, 101, 110, 116, 105, 116, 121]
  const FEATURE_KEY: bytes := [102, 101, 97, 116, 117, 114, 101]
  const VERSION_KEY: bytes := [118, 101, 114, 115, 105, 111, 110]
  const ENTRIES_KEY: bytes := [101, 110, 116, 114, 105, 101, 115]

  function Numbers(fs: seq<Number>): (items: JItems) {
    if |fs| == 0 then JNoItems else JItem(JNum(fs[0]), Numbers(fs[1..]))
  }

  function EntryJson(e: Entry): (v: Json) {
    JObj(JPair(ID_KEY, JStr(e.identity), JPair(FEATURE_KEY, JArr(Numbers(e.feature)), JNoMembers)))
  }

  function EntriesJson(es: Db): (items: JItems) {
    if |es| == 0 then JNoItems else JItem(EntryJson(es[0]), EntriesJson(es[1..]))
  }

  function DatabaseJson(es: Db): (v: Json) {
    JObj(JPair(VERSION_KEY, JNum(Number(false, 1, 0, 0)), JPair(ENTRIES_KEY, JArr(EntriesJson(es)), JNoMembers)))
  }

  /** No control characters. */
  predicate Printable(s: bytes) {
    forall c :: c in s ==> c >= 32
  }

  ghost predicate AllPrintable(es: Db) {
    forall e :: e in es ==> Printable(e.identity)
  }

  /** A feature as it is kept: eight decimals, at least one number. */
  ghost predicate Eights(fs: seq<Number>) {
    |fs| > 0 && forall v :: v in fs ==> v.places == 8 && v.exponent == 0
  }

  ghost predicate AllEights(es: Db) {
    forall e :: e in es ==> Eights(e.feature)
  }

  // ---- strings and white space ----

  predicate White(w: bytes) {
    forall c :: c in w ==> IsWs(c)
  }

  lemma {:induction false} SkipWhite(w: bytes, s: bytes)
    requires White(w)
    ensures SkipWs(w + s) == SkipWs(s)
    decreases |w|
  {
    if |w| == 0 {
      assert w + s == s;
    } else {
      assert (w + s)[1..] == w[1..] + s;
      SkipWhite(w[1..], s);
    }
  }

  lemma FirstOrRest<T>(s: seq<T>)
    requires |s| > 0
    ensures s == [s[0]] + s[1..] && s[0] in s && forall c :: c in s <==> c == s[0] || c in s[1..]
  {
    assert s == [s[0]] + s[1..];
  }

  /** One character as the saver escapes it. */
  lemma CharReads(c: byte, t: bytes)
    ensures var s := (if c == BACKSLASH || c == QUOTE then [BACKSLASH, c] else [c]) + t;
            s[0] != QUOTE && ParseChar(s) == if c >= 32 then Some(([c], t)) else None
  {
    var u := if c == BACKSLASH || c == QUOTE then [BACKSLASH, c] else [c];
    assert (u + t)[|u|..] == t;
  }

  lemma {:induction false} IdReads(id: bytes, tail: bytes)
    ensures ParseChars(EscapedId(id, [QUOTE] + tail)) == Read(Printable(id), id, tail)
    decreases |id|
  {
    if |id| == 0 {
      assert ([QUOTE] + tail)[1..] == tail;
    } else {
      var rest := EscapedId(id[1..], [QUOTE] + tail);
      IdReads(id[1..], tail);
      CharReads(id[0], rest);
      FirstOrRest(id);
      assert Printable(id) <==> id[0] >= 32 && Printable(id[1..]);
      hide ParseChar;
      hide Printable;
    }
  }

  /** A quoted identity as a value. */
  lemma QuotedReads(id: bytes, tail: bytes)
    ensures var s := [QUOTE] + EscapedId(id, [QUOTE] + tail);
            Opens(s) && ParseString(s) == Read(Printable(id), id, tail) && ParseValue(s) == Read(Printable(id), JStr(id), tail)
  {
    var s := [QUOTE] + EscapedId(id, [QUOTE] + tail);
    assert s[1..] == EscapedId(id, [QUOTE] + tail);
    IdReads(id, tail);
    SkipSolid(s);
    hide EscapedId;
    hide ParseChars;
    hide Printable;
    hide SkipWs;
    hide ParseObject;
    hide ParseArray;
    hide ParseNumber;
  }

  predicate Plain(key: bytes) {
    forall c :: c in key ==> c >= 32 && c != QUOTE && c != BACKSLASH
  }

  lemma {:induction false} PlainStays(key: bytes, tail: bytes)
    requires Plain(key)
    ensures EscapedId(key, tail) == key + tail && Printable(key)
    decreases |key|
  {
    if |key| > 0 {
      FirstOrRest(key);
      PlainStays(key[1..], tail);
      Concat([key[0]], key[1..], tail);
    } else {
      assert key + tail == tail;
    }
  }

  /** A member's key behind white space, and its colon. */
  lemma KeyReads(w: bytes, key: bytes, x: bytes)
    requires White(w) && Plain(key)
    ensures var s := w + ([QUOTE] + (key + ([QUOTE] + ([COLON] + x))));
            && Opens(SkipWs(s))
            && ParseString(SkipWs(s)) == Some((key, [COLON] + x)) && SkipWs([COLON] + x) == [COLON] + x
  {
    var t := [COLON] + x;
    var q := [QUOTE] + (key + ([QUOTE] + t));
    PlainStays(key, [QUOTE] + t);
    QuotedReads(key, t);
    SkipWhite(w, q);
    SkipSolid(q);
    SkipSolid(t);
    hide SkipWs;
    hide ParseString;
    hide EscapedId;
    hide White;
    hide Plain;
    hide Printable;
  }

  // ---- the parts of the file ----

  lemma NumberIsFloat(v: Number)
    requires v.places == 8 && v.exponent == 0
    ensures var f := Fixed(v.negative, v.scaled, 8);
            NumberText(v) == FloatText(f) && NumberOf(f) == v
  {
  }

  lemma {:induction false} FeatureReads(fs: seq<Number>, tail: bytes)
    requires Eights(fs)
    ensures Opens(FeatureText(fs, [RBRACKET] + tail))
    ensures ParseItems(FeatureText(fs, [RBRACKET] + tail)) == Some((Numbers(fs), tail))
    decreases |fs|
  {
    var f := Fixed(fs[0].negative, fs[0].scaled, 8);
    NumberIsFloat(fs[0]);
    if |fs| == 1 {
      FloatReads(f, [RBRACKET] + tail);
      LastItem(f, tail);
    } else {
      var rest := FeatureText(fs[1..], [RBRACKET] + tail);
      FirstOrRest(fs);
      FloatReads(f, [COMMA, SPACE] + rest);
      TripleItem(f, rest);
      SpaceItems(rest);
      FeatureReads(fs[1..], tail);
    }
    hide NumberText;
    hide FloatText;
    hide NumberOf;
    hide ParseItems;
    hide ParseValue;
  }

  /** Behind the identity: the second member and the end of the entry. */
  lemma FeaturePartReads(fs: seq<Number>, tail: bytes)
    requires Eights(fs)
    ensures var s := FeaturePart(fs, tail);
            && |s| > 0 && s == [COMMA] + s[1..] && SkipWs(s) == s
            && ParseMembers(s[1..]) == Some((JPair(FEATURE_KEY, JArr(Numbers(fs)), JNoMembers), tail))
  {
    var t := FeatureText(fs, [RBRACKET] + (CLOSE + tail));
    var v := [SPACE] + ([LBRACKET] + t);
    var w: bytes := [10, 32, 32, 32, 32, 32, 32];
    var s := FeaturePart(fs, tail);
    var m := w + ([QUOTE] + (FEATURE_KEY + ([QUOTE] + ([COLON] + v))));
    FeaturePartIs(t);
    assert s[1..] == m;
    SkipSolid(s);
    KeyReads(w, FEATURE_KEY, v);
    FeatureReads(fs, CLOSE + tail);
    OpensSolid(t);
    ArrayIs(t);
    SkipSpace([LBRACKET] + t);
    ParseSkips(v, [LBRACKET] + t);
    CloseIs(tail);
    MembersStep(m, FEATURE_KEY, [COLON] + v, v, Some((JArr(Numbers(fs)), CLOSE + tail)), tail);
    hide SkipWs;
    hide ParseString;
    hide ParseValue;
    hide ParseItems;
    hide ParseMembers;
    hide FeatureText;
    hide Numbers;
    hide White;
    hide Plain;
  }

  lemma FeaturePartIs(t: bytes)
    ensures AFTER_ID + (FEATURE + (BEFORE_FEATURE + t)) ==
            [COMMA] + ([10, 32, 32, 32, 32, 32, 32] + ([QUOTE] + (FEATURE_KEY + ([QUOTE] + ([COLON] + ([SPACE] + ([LBRACKET] + t)))))))
  {
    Joined([COMMA], [10, 32, 32, 32, 32, 32, 32], [], [QUOTE], FEATURE_KEY, [QUOTE], [COLON], [SPACE], [LBRACKET], t);
  }

  lemma CloseIs(tail: bytes)
    ensures SkipWs(CLOSE + tail) == [RBRACE] + tail
  {
    SkipWhite([10, 32, 32, 32, 32], [RBRACE] + tail);
    assert CLOSE + tail == [10, 32, 32, 32, 32] + ([RBRACE] + tail);
  }

  lemma Joined(a: bytes, b: bytes, c: bytes, d: bytes, e: bytes, f: bytes, g: bytes, h: bytes, i: bytes, t: bytes)
    ensures (a + b + c) + ((d + e + f + g) + ((h + i) + t)) == a + (b + (c + (d + (e + (f + (g + (h + (i + t))))))))
    ensures [] + d == d
  {
  }

  lemma EntryIs(t: bytes)
    ensures OPEN + (IDENTITY + (BEFORE_ID + t)) ==
            [32, 32, 32, 32] + ([LBRACE] + ([10, 32, 32, 32, 32, 32, 32] +
            ([QUOTE] + (ID_KEY + ([QUOTE] + ([COLON] + ([SPACE] + ([QUOTE] + t))))))))
  {
    Joined([32, 32, 32, 32], [LBRACE], [10, 32, 32, 32, 32, 32, 32], [QUOTE], ID_KEY, [QUOTE], [COLON], [SPACE], [QUOTE], t);
  }

  /** An entry reads as an object, unless its identity has a control character. */
  lemma EntryReads(e: Entry, tail: bytes)
    requires Eights(e.feature)
    ensures ParseValue(EntryText(e, tail)) == Read(Printable(e.identity), EntryJson(e), tail)
    ensures Opens(SkipWs(EntryText(e, tail)))
  {
    hide *;
    var after := FeaturePart(e.feature, tail);
    var q := [QUOTE] + EscapedId(e.identity, [QUOTE] + after);
    var v := [SPACE] + q;
    var w: bytes := [10, 32, 32, 32, 32, 32, 32];
    var m := w + ([QUOTE] + (ID_KEY + ([QUOTE] + ([COLON] + v))));
    EntryParts(e, tail);
    FeaturePartReads(e.feature, tail);
    QuotedReads(e.identity, after);
    ReadMap(Printable(e.identity), JStr(e.identity), after);
    ReadMap(Printable(e.identity), EntryJson(e), tail);
    OpensSolid(q);
    SkipSpace(q);
    ParseSkips(v, q);
    KeyReads(w, ID_KEY, v);
    MembersStep(m, ID_KEY, [COLON] + v, v, Read(Printable(e.identity), JStr(e.identity), after), after[1..]);
    ObjectIs(m);
    BraceOpens(m);
    SkipWhite([32, 32, 32, 32], [LBRACE] + m);
    ParseSkips(EntryText(e, tail), [LBRACE] + m);
  }

  lemma BraceOpens(m: bytes)
    ensures Opens([LBRACE] + m) && SkipWs([LBRACE] + m) == [LBRACE] + m
  {
    SkipSolid([LBRACE] + m);
  }

  lemma EntryParts(e: Entry, tail: bytes)
    ensures EntryText(e, tail) ==
            [32, 32, 32, 32] + ([LBRACE] + ([10, 32, 32, 32, 32, 32, 32] +
            ([QUOTE] + (ID_KEY + ([QUOTE] + ([COLON] + ([SPACE] + ([QUOTE] + EscapedId(e.identity, [QUOTE] + FeaturePart(e.feature, tail))))))))))
    ensures White([32, 32, 32, 32]) && White([10, 32, 32, 32, 32, 32, 32]) && Plain(ID_KEY)
    ensures EntryJson(e) == JObj(JPair(ID_KEY, JStr(e.identity), JPair(FEATURE_KEY, JArr(Numbers(e.feature)), JNoMembers)))
  {
    EntryIs(EscapedId(e.identity, [QUOTE] + FeaturePart(e.feature, tail)));
    hide EscapedId;
    hide FeaturePart;
    hide Numbers;
  }

  lemma BetweenIs(t: bytes)
    ensures BETWEEN + t == [COMMA] + ([NEWLINE] + t) && SkipWs([NEWLINE] + t) == SkipWs(t)
    ensures SkipWs(BETWEEN + t) == [COMMA] + ([NEWLINE] + t)
  {
    SkipWhite([NEWLINE], t);
    SkipSolid([COMMA] + ([NEWLINE] + t));
    hide SkipWs;
  }

  lemma FirstEntry(es: Db, close: bytes)
    requires |es| > 0
    ensures EntriesText(es, close) == EntryText(es[0], if |es| == 1 then close else BETWEEN + EntriesText(es[1..], close))
    ensures EntriesJson(es) == JItem(EntryJson(es[0]), EntriesJson(es[1..]))
    ensures |es| == 1 ==> EntriesJson(es[1..]) == JNoItems && AllPrintable(es[1..])
    ensures AllPrintable(es) <==> Printable(es[0].identity) && AllPrintable(es[1..])
    ensures AllEights(es) ==> Eights(es[0].feature) && AllEights(es[1..])
  {
    FirstOrRest(es);
    hide EntryText;
    hide EntryJson;
    hide Printable;
    hide Eights;
  }

  /** The entries read as the items of an array. */
  lemma {:induction false} EntriesRead(es: Db, close: bytes, tail: bytes)
    requires AllEights(es) && |es| > 0 && SkipWs(close) == [RBRACKET] + tail
    ensures ParseItems(EntriesText(es, close)) == Read(AllPrintable(es), EntriesJson(es), tail)
    ensures Opens(SkipWs(EntriesText(es, close)))
    decreases |es|
  {
    hide *;
    var e := es[0];
    FirstEntry(es, close);
    ReadMap(AllPrintable(es), EntriesJson(es), tail);
    if |es| == 1 {
      EntryReads(e, close);
      ReadMap(Printable(e.identity), EntryJson(e), close);
      ItemsStep(EntryText(e, close), ParseValue(EntryText(e, close)), tail);
    } else {
      var more := EntriesText(es[1..], close);
      var rest := BETWEEN + more;
      EntryReads(e, rest);
      ReadMap(Printable(e.identity), EntryJson(e), rest);
      BetweenIs(more);
      ItemsStep(EntryText(e, rest), ParseValue(EntryText(e, rest)), [NEWLINE] + more);
      ParseSkips([NEWLINE] + more, more);
      SameItems([NEWLINE] + more, more);
      EntriesRead(es[1..], close, tail);
      ReadMap(AllPrintable(es[1..]), EntriesJson(es[1..]), tail);
    }
  }

  lemma SameItems(s: bytes, t: bytes)
    requires ParseValue(s) == ParseValue(t)
    ensures ParseItems(s) == ParseItems(t)
  {
    hide ParseValue;
    hide SkipWs;
  }

  // ---- the whole file ----

  const INDENT: bytes := [10, 32, 32]
  const LAST: bytes := [10, 125, 10]

  /** The member that holds the entries, and the one before it. */
  function EntriesMember(t: bytes): (m: bytes) {
    INDENT + ([QUOTE] + (ENTRIES_KEY + ([QUOTE] + ([COLON] + ([SPACE] + ([LBRACKET] + ([NEWLINE] + t)))))))
  }

  function VersionMember(m: bytes): (s: bytes) {
    INDENT + ([QUOTE] + (VERSION_KEY + ([QUOTE] + ([COLON] + ([SPACE] + ([49] + ([COMMA] + m)))))))
  }

  lemma HeaderIs(t: bytes)
    ensures HEADER + t == [LBRACE] + VersionMember(EntriesMember(t))
  {
    var front := INDENT + [QUOTE] + VERSION_KEY + [QUOTE] + [COLON] + [SPACE] + [49] + [COMMA];
    var back := INDENT + [QUOTE] + ENTRIES_KEY + [QUOTE] + [COLON] + [SPACE] + [LBRACKET] + [NEWLINE];
    HeaderParts();
    Rejoined(INDENT, [QUOTE], ENTRIES_KEY, [QUOTE], [COLON], [SPACE], [LBRACKET], [NEWLINE], t);
    Rejoined(INDENT, [QUOTE], VERSION_KEY, [QUOTE], [COLON], [SPACE], [49], [COMMA], EntriesMember(t));
    Concat([LBRACE] + front, back, t);
    Concat([LBRACE], front, EntriesMember(t));
    hide HEADER;
    hide INDENT;
    hide VERSION_KEY;
    hide ENTRIES_KEY;
  }

  lemma HeaderParts()
    ensures HEADER == [LBRACE] + (INDENT + [QUOTE] + VERSION_KEY + [QUOTE] + [COLON] + [SPACE] + [49] + [COMMA])
                      + (INDENT + [QUOTE] + ENTRIES_KEY + [QUOTE] + [COLON] + [SPACE] + [LBRACKET] + [NEWLINE])
  {
  }

  lemma Rejoined(a: bytes, b: bytes, c: bytes, d: bytes, e: bytes, f: bytes, g: bytes, h: bytes, t: bytes)
    ensures a + b + c + d + e + f + g + h + t == a + (b + (c + (d + (e + (f + (g + (h + t)))))))
  {
  }

  lemma FooterIs()
    ensures SkipWs(FOOTER) == [RBRACKET] + LAST && SkipWs(LAST) == [RBRACE] + [10] && SkipWs([10]) == []
  {
    SkipWhite([10, 32, 32], [RBRACKET] + LAST);
    assert FOOTER == [10, 32, 32] + ([RBRACKET] + LAST);
    SkipWhite([10], [RBRACE] + [10]);
    assert LAST == [10] + ([RBRACE] + [10]);
    SkipWhite([10], []);
    assert [10] + [] == [10];
  }

  /** The array of entries, which may be empty. */
  lemma ArrayReads(es: Db)
    requires AllEights(es)
    ensures var t := [NEWLINE] + EntriesText(es, FOOTER);
            ParseValue([LBRACKET] + t) == Read(AllPrintable(es), JArr(EntriesJson(es)), LAST)
  {
    var u := EntriesText(es, FOOTER);
    var t := [NEWLINE] + u;
    FooterIs();
    BetweenIs(u);
    if |es| == 0 {
      EmptyArray(t, LAST);
    } else {
      EntriesRead(es, FOOTER, LAST);
      ArrayIs(t);
      ParseSkips(t, u);
      SameItems(t, u);
    }
    hide SkipWs;
    hide ParseValue;
    hide ParseItems;
    hide EntryText;
    hide EntryJson;
    hide Printable;
    hide Eights;
  }

  lemma OneReads(rest: bytes)
    requires Stops(rest)
    ensures ParseValue([SPACE] + ([49] + rest)) == Some((JNum(Number(false, 1, 0, 0)), rest))
  {
    assert IntText(1) == [49];
    IntReads(1, rest);
    SkipSpace([49] + rest);
    ParseSkips([SPACE] + ([49] + rest), [49] + rest);
    hide SkipWs;
    hide ParseValue;
  }

  lemma MembersAre(t: bytes)
    ensures EntriesMember(t) == INDENT + ([QUOTE] + (ENTRIES_KEY + ([QUOTE] + ([COLON] + ([SPACE] + ([LBRACKET] + ([NEWLINE] + t)))))))
    ensures White(INDENT) && Plain(ENTRIES_KEY)
  {
  }

  lemma EntriesMemberReads(es: Db)
    requires AllEights(es)
    ensures var m := EntriesMember(EntriesText(es, FOOTER));
            ParseMembers(m) == Read(AllPrintable(es), JPair(ENTRIES_KEY, JArr(EntriesJson(es)), JNoMembers), [10])
  {
    hide *;
    var t := EntriesText(es, FOOTER);
    var a := [LBRACKET] + ([NEWLINE] + t);
    var v := [SPACE] + a;
    FooterIs();
    ArrayReads(es);
    SkipSpace(a);
    ParseSkips(v, a);
    MembersAre(t);
    KeyReads(INDENT, ENTRIES_KEY, v);
    ReadMap(AllPrintable(es), JArr(EntriesJson(es)), LAST);
    ReadMap(AllPrintable(es), JPair(ENTRIES_KEY, JArr(EntriesJson(es)), JNoMembers), [10]);
    MembersStep(EntriesMember(t), ENTRIES_KEY, [COLON] + v, v, Read(AllPrintable(es), JArr(EntriesJson(es)), LAST), [10]);
  }

  lemma VersionMemberReads(m: bytes)
    ensures Opens(SkipWs(VersionMember(m)))
    ensures ParseMembers(VersionMember(m)) ==
            match ParseMembers(m)
            case None => None
            case Some((ms, rest)) => Some((JPair(VERSION_KEY, JNum(Number(false, 1, 0, 0)), ms), rest))
  {
    var x := [SPACE] + ([49] + ([COMMA] + m));
    OneReads([COMMA] + m);
    SkipSolid([COMMA] + m);
    KeyReads(INDENT, VERSION_KEY, x);
    MembersStep(VersionMember(m), VERSION_KEY, [COLON] + x, x, Some((JNum(Number(false, 1, 0, 0)), [COMMA] + m)), m);
    hide SkipWs;
    hide ParseString;
    hide ParseValue;
    hide ParseMembers;
  }

  /** The saved file is a JSON text exactly when no active identity has a control character, which the
      saver does not escape; it is then the tree of the active entries, in order, under version 1. */
  lemma SavedIsJson(db: Db)
    requires AllEights(Active(db))
    ensures Parse(Saved(db)) == if AllPrintable(Active(db)) then Some(DatabaseJson(Active(db))) else None
  {
    var es := Active(db);
    var m := EntriesMember(EntriesText(es, FOOTER));
    HeaderIs(EntriesText(es, FOOTER));
    FooterIs();
    EntriesMemberReads(es);
    VersionMemberReads(m);
    ObjectIs(VersionMember(m));
    hide SkipWs;
    hide ParseValue;
    hide ParseMembers;
    hide EntriesText;
    hide EntriesMember;
    hide VersionMember;
    hide EntriesJson;
    hide AllPrintable;
    hide Active;
  }
}
