/** What the face database loader makes of any file at all (src/arcface_recognizer.c). */
module FaceLoad {
  import opened Bytes
  import opened JsonText
  import opened FaceDatabase

  /** A registration that a round of the loader makes. */
  datatype Reg = Reg(id: bytes, feature: seq<Number>)

  function RegisteredAll(db: Db, regs: seq<Reg>): (r: Db)
    decreases |regs|
  {
    if |regs| == 0 then db else RegisteredAll(Registered(db, regs[0].id, regs[0].feature).0, regs[1..])
  }

  /** A name of at most 31 octets, none of them NUL, and a feature of 128 numbers. */
  predicate Sound(r: Reg) {
    0 < |r.id| <= 31 && 0 !in r.id && |r.feature| == 128
  }

  ghost predicate AllSound(regs: seq<Reg>) {
    forall r :: r in regs ==> Sound(r)
  }

  lemma NoRoom(db: Db, id: bytes, feature: seq<Number>)
    ensures Registered(db, id, feature).1 <==> |db| < 256
    ensures |db| >= 256 ==> Registered(db, id, feature).0 == db
  {
  }

  lemma {:induction false} NoRoomEver(db: Db, regs: seq<Reg>)
    requires |db| >= 256
    ensures RegisteredAll(db, regs) == db
    decreases |regs|
  {
    if |regs| > 0 {
      NoRoom(db, regs[0].id, regs[0].feature);
      NoRoomEver(db, regs[1..]);
    }
  }

  lemma {:induction false} Appended(db: Db, a: seq<Reg>, b: seq<Reg>)
    ensures RegisteredAll(db, a + b) == RegisteredAll(RegisteredAll(db, a), b)
    decreases |a|
  {
    if |a| == 0 {
      assert a + b == b;
    } else {
      assert (a + b)[1..] == a[1..] + b;
      Appended(Registered(db, a[0].id, a[0].feature).0, a[1..], b);
    }
  }

  lemma {:induction false} NoNulRead(s: bytes, room: nat)
    ensures 0 !in ReadIdentity(s, room).0
    decreases |s|
  {
    if |s| == 0 || s[0] == NUL || s[0] == QUOTE || room == 0 {
    } else if s[0] == BACKSLASH && |s| > 1 && s[1] != NUL {
      NoNulRead(s[2..], room - 1);
    } else {
      NoNulRead(s[1..], room - 1);
    }
  }

  /** What a round leaves. */
  function Left(r: Round): (left: (Db, nat)) {
    match r case Stop(db, count) => (db, count) case Go(db, count, _) => (db, count)
  }

  ghost predicate Leaves(db: Db, count: nat, db': Db, count': nat, regs: seq<Reg>) {
    && AllSound(regs) && db' == RegisteredAll(db, regs)
    && count' >= count && (count' > count <==> |regs| > 0 && |db| < 256)
  }

  lemma NoneLeaves(db: Db, count: nat)
    ensures Leaves(db, count, db, count, [])
  {
  }

  lemma OneLeaves(db: Db, count: nat, r: Reg)
    requires Sound(r)
    ensures var (db', ok) := Registered(db, r.id, r.feature);
            Leaves(db, count, db', if ok then count + 1 else count, [r])
  {
    NoRoom(db, r.id, r.feature);
    assert [r][1..] == [];
    assert RegisteredAll(Registered(db, r.id, r.feature).0, []) == Registered(db, r.id, r.feature).0;
    hide Sound;
    hide Registered;
  }

  lemma BothLeave(db: Db, count: nat, db': Db, count': nat, db'': Db, count'': nat, a: seq<Reg>, b: seq<Reg>)
    requires Leaves(db, count, db', count', a) && Leaves(db', count', db'', count'', b)
    ensures Leaves(db, count, db'', count'', a + b)
  {
    Appended(db, a, b);
    if |db| >= 256 { NoRoomEver(db, a); }
    if |a| == 0 { assert db' == db; }
    hide Sound;
    hide RegisteredAll;
  }

  /** The feature behind an identity. */
  lemma FeatureLeaves(db: Db, count: nat, id: bytes, p: bytes) returns (regs: seq<Reg>)
    requires 0 < |id| <= 31 && 0 !in id
    ensures var (db', count') := Left(LoadFeature(db, count, id, p)); Leaves(db, count, db', count', regs)
  {
    hide ReadFeature;
    hide Find;
    hide FindChar;
    hide Registered;
    hide Leaves;
    regs := [];
    NoneLeaves(db, count);
    match Find(p, FEATURE)
    case None =>
    case Some(u) =>
      match FindChar(u[|FEATURE|..], LBRACKET)
      case None =>
      case Some(w) =>
        var (fs, rest) := ReadFeature(w[1..], DIM);
        if |fs| == DIM {
          regs := [Reg(id, fs)];
          OneLeaves(db, count, Reg(id, fs));
        }
  }

  /** A round registers at most one face. */
  lemma RoundLeaves(db: Db, count: nat, p: bytes) returns (regs: seq<Reg>)
    ensures var (db', count') := Left(LoadRound(db, count, p)); Leaves(db, count, db', count', regs)
  {
    hide ReadIdentity;
    hide LoadFeature;
    hide Find;
    hide FindChar;
    hide Leaves;
    regs := [];
    NoneLeaves(db, count);
    match Find(p, IDENTITY)
    case None =>
    case Some(u) =>
      match FindChar(u[|IDENTITY|..], QUOTE)
      case None =>
      case Some(w) =>
        var (id, rest) := ReadIdentity(w[1..], MAX_STRING_LEN - 1);
        NoNulRead(w[1..], MAX_STRING_LEN - 1);
        if |rest| > 0 && id != [] { regs := FeatureLeaves(db, count, id, rest[1..]); }
  }

  lemma {:induction false} LoadLeaves(db: Db, count: nat, p: bytes) returns (regs: seq<Reg>)
    ensures var (db', count') := Load(db, count, p); Leaves(db, count, db', count', regs)
    decreases |p|
  {
    regs := [];
    NoneLeaves(db, count);
    if |p| > 0 && p[0] != NUL {
      regs := RoundLeaves(db, count, p);
      match LoadRound(db, count, p)
      case Stop(db', count') =>
      case Go(db', count', q) =>
        var more := LoadLeaves(db', count', q);
        var (db'', count'') := Load(db', count', q);
        BothLeave(db, count, db', count', db'', count'', regs, more);
        regs := regs + more;
    }
    hide Leaves;
    hide LoadRound;
  }

  /** Whatever the file holds, loading it is registering faces under names of 1 to 31 octets, each with a
      feature of 128 numbers; it succeeds exactly when there is such a face in it and room for one. An
      empty file, or one of more than 4 MiB, holds none. */
  lemma LoadRegisters(db: Db, file: bytes) returns (regs: seq<Reg>)
    ensures AllSound(regs)
    ensures Loaded(db, file) == (RegisteredAll(db, regs), |regs| > 0 && |db| < 256)
    ensures |file| == 0 || |file| > 4194304 ==> |regs| == 0
  {
    if |file| == 0 || |file| > FILE_LIMIT {
      regs := [];
      NoneLeaves(db, 0);
    } else {
      regs := LoadLeaves(db, 0, file);
    }
    hide Load;
    hide Sound;
  }

  // ---- a database stays in order, whatever is loaded ----

  ghost predicate Ordered(db: Db) {
    |db| <= 256 && Distinct(db) && forall e :: e in db ==> |e.identity| <= 31 && 0 !in e.identity
  }

  lemma RegisteredOrdered(db: Db, r: Reg)
    requires Ordered(db) && Sound(r)
    ensures Ordered(Registered(db, r.id, r.feature).0)
  {
    hide FindEntry;
  }

  lemma {:induction false} AllOrdered(db: Db, regs: seq<Reg>)
    requires Ordered(db) && AllSound(regs)
    ensures Ordered(RegisteredAll(db, regs))
    decreases |regs|
  {
    if |regs| > 0 {
      RegisteredOrdered(db, regs[0]);
      AllOrdered(Registered(db, regs[0].id, regs[0].feature).0, regs[1..]);
    }
    hide Ordered;
    hide Sound;
  }

  /** No file can bring the database out of order. */
  lemma LoadKeeps(db: Db, file: bytes)
    requires Ordered(db)
    ensures Ordered(Loaded(db, file).0)
  {
    var regs := LoadRegisters(db, file);
    AllOrdered(db, regs);
    hide Loaded;
    hide Ordered;
    hide AllSound;
  }

  // ---- searching ----

  /** The pattern begins at `i`, and no NUL comes before. */
  predicate Occurs(s: bytes, pattern: bytes, i: nat) {
    i + |pattern| <= |s| && s[i..i + |pattern|] == pattern && 0 !in s[..i]
  }

  lemma OccursNext(s: bytes, pattern: bytes, i: nat)
    requires |s| > 0 && s[0] != 0
    ensures Occurs(s, pattern, i + 1) <==> Occurs(s[1..], pattern, i)
  {
    if i + 1 <= |s| {
      assert s[..i + 1] == [s[0]] + s[1..][..i];
      if i + 1 + |pattern| <= |s| { assert s[i + 1..i + 1 + |pattern|] == s[1..][i..i + |pattern|]; }
    }
  }

  lemma NulFirst(s: bytes, pattern: bytes, k: nat)
    requires |s| > 0 && s[0] == 0 && |pattern| > 0 && 0 !in pattern
    ensures !Occurs(s, pattern, k)
  {
    assert pattern[0] in pattern;
    if 0 < k <= |s| { assert s[..k][0] == s[0]; }
    assert |pattern| <= |s| ==> s[..|pattern|][0] == s[0];
  }

  /** The search for a key finds the first place where it stands, before the first NUL. */
  lemma {:induction false} FindFirst(s: bytes, pattern: bytes) returns (i: nat)
    requires |pattern| > 0 && 0 !in pattern
    ensures Find(s, pattern).None? ==> forall k: nat :: !Occurs(s, pattern, k)
    ensures Find(s, pattern).Some? ==>
              i <= |s| && Find(s, pattern) == Some(s[i..]) && Occurs(s, pattern, i) && forall k: nat :: k < i ==> !Occurs(s, pattern, k)
    decreases |s|
  {
    i := 0;
    if |s| < |pattern| {
    } else if s[0] == NUL {
      forall k: nat ensures !Occurs(s, pattern, k) { NulFirst(s, pattern, k); }
    } else if pattern <= s {
      assert s[0..] == s && Occurs(s, pattern, 0);
    } else {
      assert !Occurs(s, pattern, 0);
      var j := FindFirst(s[1..], pattern);
      forall k: nat ensures Occurs(s, pattern, k + 1) <==> Occurs(s[1..], pattern, k) { OccursNext(s, pattern, k); }
      i := j + 1;
      if Find(s, pattern).None? {
        forall k: nat ensures !Occurs(s, pattern, k) { if k > 0 { OccursNext(s, pattern, k - 1); } }
      } else {
        assert s[1..][j..] == s[j + 1..];
        forall k: nat | k < i ensures !Occurs(s, pattern, k) { if k > 0 { OccursNext(s, pattern, k - 1); } }
      }
    }
    hide Occurs;
  }

  /** Between numbers, blanks, tabs, line ends and commas are skipped, as far as they go. */
  lemma {:induction false} Skipped(s: bytes) returns (w: bytes)
    ensures s == w + SkipSeparators(s) && forall c :: c in w ==> c in [32, 9, 10, 13, 44]
    ensures var u := SkipSeparators(s); u == [] || u[0] !in [32, 9, 10, 13, 44]
    decreases |s|
  {
    w := [];
    if |s| > 0 && IsSeparator(s[0]) {
      var v := Skipped(s[1..]);
      w := [s[0]] + v;
      assert s == [s[0]] + s[1..];
    }
  }
}
