/** The recogniser's database object (src/arcface_recognizer.c): a fixed table filled from the front,
    a writer that emits the file piece by piece, and a loader with a moving cursor. Writer and
    loader are shown to compute the functions of which the round trip is proved; their texts are
    given with what follows them, so that pieces can be joined from either end. */
module FaceStore {
  import opened Bytes
  import opened JsonText
  import opened FaceDatabase
  import opened FaceRoundTrip

  const VACANT := Entry([], [], false)

  // ---- writing ----

  /** The identity with its escapes, appended octet by octet. */
  method PutIdentity(out: bytes, id: bytes) returns (after: bytes)
    ensures forall t :: after + t == out + EscapedId(id, t)
  {
    after := out;
    var i := 0;
    assert id[0..] == id;
    while i < |id|
      invariant 0 <= i <= |id|
      invariant forall t :: after + EscapedId(id[i..], t) == out + EscapedId(id, t)
    {
      ghost var before := after;
      if id[i] == BACKSLASH || id[i] == QUOTE { after := after + [BACKSLASH]; }
      after := after + [id[i]];
      assert id[i..][1..] == id[i + 1..];
      forall t ensures after + EscapedId(id[i + 1..], t) == out + EscapedId(id, t) {
        IdentityOctet(before, after, id[i..], t);
      }
      i := i + 1;
    }
  }

  lemma IdentityOctet(before: bytes, after: bytes, s: bytes, t: bytes)
    requires |s| > 0
    requires after == if s[0] == BACKSLASH || s[0] == QUOTE then before + [BACKSLASH] + [s[0]] else before + [s[0]]
    ensures after + EscapedId(s[1..], t) == before + EscapedId(s, t)
  {
    var x := EscapedId(s[1..], t);
    hide EscapedId;
    EscapedIdStep(s, t);
    Concat(before, [s[0]], x);
    Concat(before + [BACKSLASH], [s[0]], x);
    Concat(before, [BACKSLASH], [s[0]] + x);
    assert [BACKSLASH, s[0]] + x == [BACKSLASH] + ([s[0]] + x);
  }

  method PutFeature(out: bytes, fs: seq<Number>) returns (after: bytes)
    requires |fs| > 0
    ensures forall t :: after + t == out + FeatureText(fs, t)
  {
    hide NumberText;
    after := out;
    var j := 0;
    assert fs[0..] == fs;
    while j < |fs|
      invariant 0 <= j <= |fs|
      invariant forall t :: after + (if j == |fs| then t else if j > 0 then [COMMA, SPACE] + FeatureText(fs[j..], t) else FeatureText(fs, t))
                            == out + FeatureText(fs, t)
    {
      ghost var before := after;
      if j > 0 { after := after + [COMMA, SPACE]; }
      after := after + NumberText(fs[j]);
      assert fs[j..][1..] == fs[j + 1..];
      forall t
        ensures after + (if j + 1 == |fs| then t else [COMMA, SPACE] + FeatureText(fs[j + 1..], t)) == out + FeatureText(fs, t)
      {
        FeatureNumber(before, after, fs[j..], j > 0, t);
      }
      j := j + 1;
    }
  }

  lemma FeatureNumber(before: bytes, after: bytes, fs: seq<Number>, more: bool, t: bytes)
    requires |fs| > 0
    requires after == (if more then before + [COMMA, SPACE] else before) + NumberText(fs[0])
    ensures after + (if |fs| == 1 then t else [COMMA, SPACE] + FeatureText(fs[1..], t)) ==
            before + if more then [COMMA, SPACE] + FeatureText(fs, t) else FeatureText(fs, t)
  {
    var x := if |fs| == 1 then t else [COMMA, SPACE] + FeatureText(fs[1..], t);
    FeatureTextIs(fs, t);
    hide FeatureText;
    hide NumberText;
    Concat(if more then before + [COMMA, SPACE] else before, NumberText(fs[0]), x);
    Concat(before, [COMMA, SPACE], NumberText(fs[0]) + x);
  }

  method PutEntry(out: bytes, e: Entry) returns (after: bytes)
    requires |e.feature| > 0
    ensures forall t :: after + t == out + EntryText(e, t)
  {
    hide EscapedId;
    hide FeatureText;
    var a := out + OPEN + IDENTITY + BEFORE_ID;
    var b := PutIdentity(a, e.identity);
    var c := b + [QUOTE] + AFTER_ID + FEATURE + BEFORE_FEATURE;
    var d := PutFeature(c, e.feature);
    after := d + [RBRACKET] + CLOSE;
    forall t ensures after + t == out + EntryText(e, t) { EntryPieces(out, a, b, c, d, after, e, t); }
  }

  lemma EntryPieces(out: bytes, a: bytes, b: bytes, c: bytes, d: bytes, after: bytes, e: Entry, t: bytes)
    requires a == out + OPEN + IDENTITY + BEFORE_ID
    requires forall x :: b + x == a + EscapedId(e.identity, x)
    requires c == b + [QUOTE] + AFTER_ID + FEATURE + BEFORE_FEATURE
    requires forall x :: d + x == c + FeatureText(e.feature, x)
    requires after == d + [RBRACKET] + CLOSE
    ensures after + t == out + EntryText(e, t)
  {
    hide EscapedId;
    hide FeatureText;
    var x := [RBRACKET] + (CLOSE + t);
    var f := FeatureText(e.feature, x);
    var y := [QUOTE] + FeaturePart(e.feature, t);
    Concat(d + [RBRACKET], CLOSE, t);
    Concat(d, [RBRACKET], CLOSE + t);
    assert d + x == c + f;
    Concat(b + [QUOTE] + AFTER_ID + FEATURE, BEFORE_FEATURE, f);
    Concat(b + [QUOTE] + AFTER_ID, FEATURE, BEFORE_FEATURE + f);
    Concat(b + [QUOTE], AFTER_ID, FEATURE + (BEFORE_FEATURE + f));
    Concat(b, [QUOTE], AFTER_ID + (FEATURE + (BEFORE_FEATURE + f)));
    assert b + y == a + EscapedId(e.identity, y);
    Concat(out + OPEN + IDENTITY, BEFORE_ID, EscapedId(e.identity, y));
    Concat(out + OPEN, IDENTITY, BEFORE_ID + EscapedId(e.identity, y));
    Concat(out, OPEN, IDENTITY + (BEFORE_ID + EscapedId(e.identity, y)));
  }

  // ---- reading ----

  /** The identity behind its opening quote, at most 31 characters. */
  method TakeIdentity(s: bytes) returns (id: bytes, rest: bytes)
    ensures (id, rest) == ReadIdentity(s, MAX_STRING_LEN - 1)
  {
    id, rest := [], s;
    ghost var goal := ReadIdentity(s, MAX_STRING_LEN - 1);
    assert [] + goal.0 == goal.0;
    while |rest| > 0 && rest[0] != NUL && rest[0] != QUOTE && |id| < MAX_STRING_LEN - 1
      invariant |id| <= MAX_STRING_LEN - 1
      invariant var r := ReadIdentity(rest, MAX_STRING_LEN - 1 - |id|); goal == (id + r.0, r.1)
      decreases |rest|
    {
      var escaped := rest[0] == BACKSLASH && |rest| > 1 && rest[1] != NUL;
      var c := if escaped then rest[1] else rest[0];
      ghost var r := ReadIdentity(if escaped then rest[2..] else rest[1..], MAX_STRING_LEN - 1 - |id| - 1);
      Concat(id, [c], r.0);
      rest := if escaped then rest[2..] else rest[1..];
      id := id + [c];
    }
    Concat(id, [], []);
  }

  /** Up to 128 numbers. */
  method TakeFeature(s: bytes) returns (fs: seq<Number>, rest: bytes)
    ensures (fs, rest) == ReadFeature(s, DIM)
  {
    hide Strtof;
    hide SkipSeparators;
    fs, rest := [], s;
    ghost var goal := ReadFeature(s, DIM);
    assert [] + goal.0 == goal.0;
    while |fs| < DIM && |rest| > 0 && rest[0] != NUL
      invariant |fs| <= DIM
      invariant var r := ReadFeature(rest, DIM - |fs|); goal == (fs + r.0, r.1)
      decreases DIM - |fs|
    {
      Concat(fs, [], []);
      var u := SkipSeparators(rest);
      if |u| == 0 || u[0] == NUL || u[0] == RBRACKET { return fs, u; }
      match Strtof(u) {
        case None => return fs + [NOTHING], u;
        case Some(p) =>
          Concat(fs, [p.0], ReadFeature(p.1, DIM - |fs| - 1).0);
          fs, rest := fs + [p.0], p.1;
      }
    }
    Concat(fs, [], []);
  }

  // ---- the object ----

  class ArcFaceRecognizer {
    const database: array<Entry>
    var numEntries: nat

    ghost predicate Valid()
      reads this
    {
      database.Length == MAX_FACES && numEntries <= MAX_FACES
    }

    ghost function Contents(): (db: Db)
      requires Valid()
      reads this, database
      ensures |db| == numEntries
    {
      database[..numEntries]
    }

    constructor ()
      ensures Valid() && fresh(database) && Contents() == []
    {
      database := new Entry[MAX_FACES](_ => VACANT);
      numEntries := 0;
    }

    method Lookup(id: bytes) returns (r: nat)
      requires Valid()
      ensures r == FindEntry(Contents(), id, 0)
    {
      ghost var db := Contents();
      r := 0;
      while r < numEntries
        invariant r <= numEntries && FindEntry(db, id, 0) == FindEntry(db, id, r)
      {
        if database[r].active && database[r].identity == id { return; }
        r := r + 1;
      }
    }

    method RegisterFeature(id: bytes, feature: seq<Number>) returns (ok: bool)
      requires Valid()
      modifies this, database
      ensures Valid() && (Contents(), ok) == Registered(old(Contents()), id, feature)
    {
      hide Stored;
      ghost var db := Contents();
      if numEntries >= MAX_FACES { return false; }
      var existing := Lookup(id);
      if existing < numEntries {
        database[existing] := database[existing].(feature := feature, active := true);
        assert Contents() == db[existing := db[existing].(feature := feature, active := true)];
        return true;
      }
      database[numEntries] := Entry(Stored(id), feature, true);
      numEntries := numEntries + 1;
      assert Contents() == db + [Entry(Stored(id), feature, true)];
      ok := true;
    }

    method DeleteEntry(id: bytes) returns (ok: bool)
      requires Valid()
      modifies database
      ensures (Contents(), ok) == Deleted(old(Contents()), id)
    {
      ghost var db := Contents();
      var i := Lookup(id);
      if i == numEntries { return false; }
      database[i] := database[i].(active := false);
      assert Contents() == db[i := db[i].(active := false)];
      ok := true;
    }

    method ClearDatabase()
      requires Valid()
      modifies this
      ensures Valid() && Contents() == []
    {
      numEntries := 0;
    }

    method SaveDatabase() returns (file: bytes)
      requires Valid() && forall e :: e in Contents() ==> |e.feature| == DIM
      ensures file == Saved(Contents())
    {
      hide EntryText;
      hide Saved;
      hide Remaining;
      ghost var db := Contents();
      file := HEADER;
      var written, i := 0, 0;
      RemainingEnds(db);
      while i < numEntries
        invariant 0 <= i <= numEntries
        invariant file + Remaining(db, i, written > 0) == Saved(db)
      {
        assert database[i] == db[i] && db[i] in db;
        if database[i].active {
          RemainingStep(db, i, written > 0, file);
          if written > 0 { file := file + BETWEEN; }
          file := PutEntry(file, database[i]);
          written := written + 1;
        } else {
          RemainingSame(db, i, written > 0);
        }
        i := i + 1;
      }
      file := file + FOOTER;
    }

    method LoadDatabase(file: bytes) returns (ok: bool)
      requires Valid()
      modifies this, database
      ensures Valid() && (Contents(), ok) == Loaded(old(Contents()), file)
    {
      hide LoadRound;
      if |file| == 0 || |file| > FILE_LIMIT { return false; }
      var count, p := 0, file;
      ghost var db := Contents();
      while |p| > 0 && p[0] != NUL
        invariant Valid() && Load(db, 0, file) == Load(Contents(), count, p)
        decreases |p|
      {
        var go;
        count, go, p := LoadOne(count, p);
        if !go { break; }
      }
      ok := count > 0;
    }

    /** One round: an identity, its feature, a registration. */
    method LoadOne(count: nat, p: bytes) returns (count': nat, go: bool, q: bytes)
      requires Valid() && |p| > 0 && p[0] != NUL
      modifies this, database
      ensures Valid()
      ensures LoadRound(old(Contents()), count, p) == if go then Go(Contents(), count', q) else Stop(Contents(), count')
      ensures go ==> |q| < |p|
      ensures !go ==> |q| == 0
    {
      hide Find;
      hide FindChar;
      hide ReadIdentity;
      hide ReadFeature;
      hide Registered;
      count', go, q := count, false, [];
      var u := Find(p, IDENTITY);
      if u.None? { return; }
      var w := FindChar(u.value[|IDENTITY|..], QUOTE);
      if w.None? { return; }
      var id, rest := TakeIdentity(w.value[1..]);
      if |rest| == 0 { return; }
      if id == [] { return count, true, rest[1..]; }
      var v := Find(rest[1..], FEATURE);
      if v.None? { return; }
      var x := FindChar(v.value[|FEATURE|..], LBRACKET);
      if x.None? { return; }
      var fs, more := TakeFeature(x.value[1..]);
      if |fs| == DIM {
        var ok := RegisterFeature(id, fs);
        if ok { count' := count + 1; }
      }
      var y := FindChar(more, RBRACKET);
      if y.None? { return; }
      go, q := true, y.value[1..];
    }
  }

  /** What saving has still to write from entry `i` on. */
  ghost function Remaining(db: Db, i: nat, comma: bool): (s: bytes)
    requires i <= |db|
  {
    var es := Active(db[i..]);
    if es == [] then FOOTER else (if comma then BETWEEN else []) + EntriesText(es, FOOTER)
  }

  lemma ActiveFrom(db: Db, i: nat)
    requires i < |db|
    ensures Active(db[i..]) == if db[i].active then [db[i]] + Active(db[i + 1..]) else Active(db[i + 1..])
  {
    ActiveStep(db[i..]);
    assert db[i..][1..] == db[i + 1..];
  }

  lemma RemainingIs(db: Db, i: nat, comma: bool)
    requires i < |db| && db[i].active
    ensures Remaining(db, i, comma) ==
            (if comma then BETWEEN else []) + EntryText(db[i], Remaining(db, i + 1, true))
  {
    var es := Active(db[i..]);
    ActiveFrom(db, i);
    EntriesTextIs(es, FOOTER);
    assert es[1..] == Active(db[i + 1..]) && es[0] == db[i];
    hide Active;
    hide EntryText;
    hide EntriesText;
  }

  lemma RemainingStep(db: Db, i: nat, comma: bool, file: bytes)
    requires i < |db| && db[i].active
    ensures file + Remaining(db, i, comma) ==
            (if comma then file + BETWEEN else file) + EntryText(db[i], Remaining(db, i + 1, true))
  {
    hide *;
    var t := EntryText(db[i], Remaining(db, i + 1, true));
    RemainingIs(db, i, comma);
    Concat(file, BETWEEN, t);
    Concat([], t, []);
  }

  lemma RemainingSame(db: Db, i: nat, comma: bool)
    requires i < |db| && !db[i].active
    ensures Remaining(db, i, comma) == Remaining(db, i + 1, comma)
  {
    ActiveFrom(db, i);
    hide Active;
  }

  lemma RemainingEnds(db: Db)
    ensures Saved(db) == HEADER + Remaining(db, 0, false)
    ensures forall comma :: Remaining(db, |db|, comma) == FOOTER
  {
    assert db[0..] == db && db[|db|..] == [];
    var es := Active(db);
    hide Active;
    hide EntryText;
  }
}
