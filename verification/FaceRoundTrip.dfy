/** Loading a saved face database into an empty recogniser restores its active entries, in order.
    The loader searches for quoted keys, so the proof shows that its searches run over everything
    else the file holds: numbers, separators, and what is left of an entry. */
module FaceRoundTrip {
  import opened Bytes
  import opened JsonText
  import opened JsonRoundTrip
  import opened FaceDatabase

  // ---- the database kept in order ----

  lemma RegisteredKept(db: Db, id: bytes, feature: seq<Number>)
    requires Kept(db) && |id| < MAX_STRING_LEN && NUL !in id && |feature| == DIM && AllFixed(feature)
    ensures Kept(Registered(db, id, feature).0)
  {
    hide FixedPoint;
    var r := Registered(db, id, feature).0;
    var i := FindEntry(db, id, 0);
    hide FindEntry;
    forall e | e in r ensures ValidEntry(e) {
      if e !in db && i < |db| { assert db[i] in db; }
    }
  }

  lemma DeletedKept(db: Db, id: bytes)
    requires Kept(db)
    ensures Kept(Deleted(db, id).0)
  {
    var i := FindEntry(db, id, 0);
    hide FindEntry;
    if i < |db| { assert db[i] in db; }
  }

  lemma EmptyKept()
    ensures Kept([])
  {
  }

  /** A registration is refused, or its identity fits the buffer, or no active entry holds the 31
      characters of it that are kept. */
  predicate Fits(db: Db, id: bytes) {
    |db| >= MAX_FACES || |id| < MAX_STRING_LEN || forall e :: e in db && e.active ==> e.identity != Stored(id)
  }

  lemma NeverFound(db: Db, id: bytes, i: nat)
    requires i <= |db| && |id| >= MAX_STRING_LEN && forall k :: 0 <= k < |db| ==> |db[k].identity| < MAX_STRING_LEN
    ensures FindEntry(db, id, i) == |db|
    decreases |db| - i
  {
    if i < |db| { NeverFound(db, id, i + 1); }
  }

  lemma LongRegistered(db: Db, id: bytes, feature: seq<Number>)
    requires Kept(db) && |id| >= MAX_STRING_LEN && |db| < MAX_FACES
    ensures Registered(db, id, feature).0 == db + [Entry(Stored(id), feature, true)]
  {
    assert forall k :: 0 <= k < |db| ==> db[k] in db;
    NeverFound(db, id, 0);
  }

  lemma LongKeptIff(db: Db, id: bytes, feature: seq<Number>)
    requires Kept(db) && |db| < MAX_FACES && NUL !in id && |feature| == DIM && AllFixed(feature)
    ensures Kept(db + [Entry(Stored(id), feature, true)]) <==> forall e :: e in db && e.active ==> e.identity != Stored(id)
  {
    hide FixedPoint;
    var r := db + [Entry(Stored(id), feature, true)];
    forall e | e in r ensures ValidEntry(e) {
      if e !in db { assert e == r[|db|]; }
    }
    forall e | e in db && e.active && Kept(r) ensures e.identity != Stored(id) {
      var k :| 0 <= k < |db| && db[k] == e;
      assert r[k] == e && r[|db|].active && r[|db|].identity == Stored(id);
    }
    assert forall k :: 0 <= k < |db| ==> r[k] == db[k] && db[k] in db;
  }

  /** From any database in order: a registration leaves it in order if and only if there is no room for
      it, or its identity is shorter than 32, or no active entry holds its first 31 characters. */
  lemma KeptIffFits(db: Db, id: bytes, feature: seq<Number>)
    requires Kept(db) && NUL !in id && |feature| == DIM && AllFixed(feature)
    ensures Kept(Registered(db, id, feature).0) <==> Fits(db, id)
  {
    hide Kept;
    hide AllFixed;
    if |id| < MAX_STRING_LEN {
      RegisteredKept(db, id, feature);
    } else if |db| < MAX_FACES {
      hide Stored;
      LongRegistered(db, id, feature);
      LongKeptIff(db, id, feature);
    }
  }

  datatype Op = Register(id: bytes, feature: seq<Number>) | Delete(id: bytes) | Clear

  function Applied(db: Db, op: Op): (r: Db) {
    match op
    case Register(id, feature) => Registered(db, id, feature).0
    case Delete(id) => Deleted(db, id).0
    case Clear => []
  }

  function After(ops: seq<Op>): (r: Db) {
    if |ops| == 0 then [] else Applied(After(ops[..|ops| - 1]), ops[|ops| - 1])
  }

  /** The arguments of a call: a C string and a whole feature. */
  ghost predicate Proper(op: Op) {
    op.Register? ==> NUL !in op.id && |op.feature| == DIM && AllFixed(op.feature)
  }

  predicate OpFits(db: Db, op: Op) {
    op.Register? ==> Fits(db, op.id)
  }

  lemma OpKept(db: Db, op: Op)
    requires Kept(db) && Proper(op)
    ensures Kept(Applied(db, op)) <==> OpFits(db, op)
  {
    hide Kept;
    hide Registered;
    hide Deleted;
    hide Fits;
    hide AllFixed;
    match op
    case Register(id, feature) => KeptIffFits(db, id, feature);
    case Delete(id) => DeletedKept(db, id);
    case Clear => EmptyKept();
  }

  /** Over every run of registrations, with identities of any length, deletions and clearings: active
      entries have identities of their own throughout if and only if every registration fits the
      database it meets. */
  lemma {:induction false} RunKeptIffFits(ops: seq<Op>)
    requires forall op :: op in ops ==> Proper(op)
    ensures (forall n :: 0 <= n <= |ops| ==> Kept(After(ops[..n]))) <==>
            (forall n :: 0 <= n < |ops| ==> OpFits(After(ops[..n]), ops[n]))
    decreases |ops|
  {
    hide *;
    var k := |ops| - 1;
    if |ops| == 0 {
      NoneApplied(ops);
    } else {
      RunKeptIffFits(ops[..k]);
      assert forall n :: 0 <= n <= k ==> ops[..k][..n] == ops[..n];
      assert ops[..k + 1] == ops;
      LastApplied(ops);
      assert ops[k] in ops;
      if Kept(After(ops[..k])) { OpKept(After(ops[..k]), ops[k]); }
    }
  }

  lemma NoneApplied(ops: seq<Op>)
    requires |ops| == 0
    ensures ops[..0] == ops && Kept(After(ops))
  {
    EmptyKept();
  }

  lemma LastApplied(ops: seq<Op>)
    requires |ops| > 0
    ensures After(ops) == Applied(After(ops[..|ops| - 1]), ops[|ops| - 1])
  {
  }

  /** So with identities of up to 31 characters they do. */
  lemma {:induction false} RunKept(ops: seq<Op>)
    requires forall op :: op in ops ==> Proper(op) && (op.Register? ==> |op.id| < MAX_STRING_LEN)
    ensures Kept(After(ops))
    decreases |ops|
  {
    hide *;
    if |ops| == 0 {
      NoneApplied(ops);
    } else {
      var k := |ops| - 1;
      RunKept(ops[..k]);
      assert ops[k] in ops;
      ShortFits(After(ops[..k]), ops[k]);
      OpKept(After(ops[..k]), ops[k]);
      LastApplied(ops);
    }
  }

  lemma ShortFits(db: Db, op: Op)
    requires op.Register? ==> |op.id| < MAX_STRING_LEN
    ensures OpFits(db, op)
  {
  }

  /** Registering makes the identity findable with this feature, deleting makes it unfindable, and
      neither touches any other active entry. */
  lemma RegisterThenFind(db: Db, id: bytes, feature: seq<Number>)
    requires Kept(db) && |id| < MAX_STRING_LEN && |db| < MAX_FACES
    ensures var (r, ok) := Registered(db, id, feature);
            var i := FindEntry(r, id, 0);
            && ok && i < |r| && r[i] == Entry(id, feature, true)
            && forall k :: 0 <= k < |db| && k != i ==> r[k] == db[k]
  {
    var i := FindEntry(db, id, 0);
    var r := Registered(db, id, feature).0;
    var j := FindEntry(r, id, 0);
    if i < |db| {
      assert r[i].active && r[i].identity == id;
    } else {
      assert r[|db|].active && r[|db|].identity == id;
    }
  }

  lemma DeleteThenFind(db: Db, id: bytes)
    requires Kept(db)
    ensures var (r, ok) := Deleted(db, id);
            && (ok <==> FindEntry(db, id, 0) < |db|)
            && FindEntry(r, id, 0) == |r| == |db|
            && forall k :: 0 <= k < |db| && db[k].identity != id ==> r[k] == db[k]
  {
    var i := FindEntry(db, id, 0);
    var r := Deleted(db, id).0;
    assert forall k :: 0 <= k < |db| && k != i && r[k].active ==> r[k] == db[k] && db[k].identity != id;
  }

  /** The search compares the whole identity, the entry holds 31 characters of it: a registered
      identity is found again, and registering it twice keeps one entry, exactly when it is shorter
      than 32. */
  lemma FoundIffShort(db: Db, id: bytes, f: seq<Number>, g: seq<Number>)
    requires Kept(db) && |db| + 1 < MAX_FACES && NUL !in id && |f| == |g| == DIM && AllFixed(f) && AllFixed(g)
    ensures var r := Registered(db, id, f).0;
            && (FindEntry(r, id, 0) < |r| <==> |id| < MAX_STRING_LEN)
            && (Distinct(Registered(r, id, g).0) <==> |id| < MAX_STRING_LEN)
  {
    var r := Registered(db, id, f).0;
    if |id| < MAX_STRING_LEN {
      RegisteredKept(db, id, f);
      RegisterThenFind(db, id, f);
      RegisteredKept(r, id, g);
    } else {
      LongTwice(db, id, f, g);
    }
  }

  lemma LongTwice(db: Db, id: bytes, f: seq<Number>, g: seq<Number>)
    requires Kept(db) && |db| + 1 < MAX_FACES && |id| >= MAX_STRING_LEN
    ensures var r := Registered(db, id, f).0; FindEntry(r, id, 0) == |r| && !Distinct(Registered(r, id, g).0)
  {
    assert forall k :: 0 <= k < |db| ==> db[k] in db;
    NeverFound(db, id, 0);
    var r := Registered(db, id, f).0;
    NeverFound(r, id, 0);
    var t := Registered(r, id, g).0;
    hide FindEntry;
    assert t[|db|].identity == t[|db| + 1].identity == Stored(id) && t[|db|].active && t[|db| + 1].active;
  }

  // ---- searching past text ----

  /** No occurrence of a quoted key that continues with `c` begins in here. */
  ghost predicate NoStart(g: bytes, c: byte) {
    NUL !in g && forall i :: 0 <= i < |g| && g[i] == QUOTE ==> i + 1 < |g| && g[i + 1] != c
  }

  lemma {:induction false} FindGap(g: bytes, t: bytes, pattern: bytes)
    requires |pattern| > 1 && pattern[0] == QUOTE && NoStart(g, pattern[1])
    ensures Find(g + t, pattern) == Find(t, pattern)
    decreases |g|
  {
    if |g| == 0 {
      assert g + t == t;
    } else {
      var s := g + t;
      assert s[1..] == g[1..] + t;
      assert s[0] == g[0] && (|g| > 1 ==> s[1] == g[1]);
      FindGap(g[1..], t, pattern);
      if |s| < |pattern| { FindShort(t, pattern); }
    }
  }

  lemma FindShort(t: bytes, pattern: bytes)
    requires 0 < |pattern| && |t| < |pattern|
    ensures Find(t, pattern) == None
  {
  }

  lemma FindHere(pattern: bytes, t: bytes)
    requires |pattern| > 0 && pattern[0] != NUL
    ensures Find(pattern + t, pattern) == Some(pattern + t)
  {
  }

  lemma {:induction false} FindCharGap(g: bytes, t: bytes, c: byte)
    requires c !in g && NUL !in g
    ensures FindChar(g + t, c) == FindChar(t, c)
    decreases |g|
  {
    if |g| == 0 {
      assert g + t == t;
    } else {
      assert (g + t)[1..] == g[1..] + t;
      FindCharGap(g[1..], t, c);
    }
  }

  lemma NoQuoteNoStart(g: bytes, c: byte)
    requires QUOTE !in g && NUL !in g
    ensures NoStart(g, c)
  {
  }

  // ---- identities ----

  lemma EscapedIdStep(s: bytes, tail: bytes)
    requires |s| > 0
    ensures EscapedId(s, tail) ==
            if s[0] == BACKSLASH || s[0] == QUOTE then [BACKSLASH, s[0]] + EscapedId(s[1..], tail) else [s[0]] + EscapedId(s[1..], tail)
  {
  }

  lemma ReadIdentityStep(c: byte, t: bytes, room: nat)
    requires room > 0 && c != NUL
    ensures var s := (if c == BACKSLASH || c == QUOTE then [BACKSLASH, c] else [c]) + t;
            var (id, rest) := ReadIdentity(t, room - 1);
            ReadIdentity(s, room) == ([c] + id, rest)
  {
    assert ([BACKSLASH, c] + t)[2..] == t && ([c] + t)[1..] == t;
  }

  /** Whatever quotes and backslashes it holds, an identity is read back. */
  lemma {:induction false} IdentityRoundTrip(id: bytes, tail: bytes, room: nat)
    requires |id| <= room && NUL !in id && |tail| > 0 && tail[0] == QUOTE
    ensures ReadIdentity(EscapedId(id, tail), room) == (id, tail)
    decreases |id|
  {
    if |id| > 0 {
      IdentityRoundTrip(id[1..], tail, room - 1);
      EscapedIdStep(id, tail);
      ReadIdentityStep(id[0], EscapedId(id[1..], tail), room);
      assert [id[0]] + id[1..] == id;
      hide EscapedId;
      hide ReadIdentity;
    }
  }

  // ---- features ----

  predicate EndsNumber(s: bytes) {
    |s| > 0 && (s[0] == COMMA || s[0] == RBRACKET)
  }

  lemma StrtofIs(s: bytes, negative: bool, t: bytes, ds: bytes, u: bytes, ps: bytes, tail: bytes)
    requires Cut(s, negative, t, ds, u) && EndsNumber(tail) && s[0] != 43
    requires |u| > 0 && u[0] == DOT && DigitRun(u[1..]) == |ps| > 0 && 1 + |ps| <= |u|
    requires u[1..1 + |ps|] == ps && u[1 + |ps|..] == tail
    ensures Strtof(s) == Some((Number(negative, Decimal(ds + ps), |ps|, 0), tail))
  {
    NoExponent(tail);
    hide Decimal;
    hide DigitRun;
    hide ParseExponent;
  }

  lemma NumberFirst(v: Number, tail: bytes)
    ensures var s := NumberText(v) + tail; |s| > 0 && (s[0] == MINUS || IsDigit(s[0]))
  {
    DigitsAre(Whole(v.scaled, DECIMALS));
    hide Digits;
    hide Whole;
    hide Padded;
    hide Decimal;
  }

  lemma NumberTextIs(v: Number, tail: bytes)
    ensures NumberText(v) + tail ==
            Sign(v.negative) + (Digits(Whole(v.scaled, DECIMALS)) + ([DOT] + (Padded(v.scaled, DECIMALS) + tail)))
  {
    var ds, ps := Digits(Whole(v.scaled, DECIMALS)), Padded(v.scaled, DECIMALS);
    hide Whole;
    hide Digits;
    hide Padded;
    hide Sign;
    Concat(Sign(v.negative), ds + ([DOT] + ps), tail);
    Concat(ds, [DOT] + ps, tail);
    Concat([DOT], ps, tail);
  }

  lemma StrtofRoundTrip(v: Number, tail: bytes)
    requires FixedPoint(v) && EndsNumber(tail)
    ensures Strtof(NumberText(v) + tail) == Some((v, tail))
  {
    var ds, ps := Digits(Whole(v.scaled, DECIMALS)), Padded(v.scaled, DECIMALS);
    var u := [DOT] + (ps + tail);
    hide Whole;
    hide Digits;
    hide Padded;
    hide Strtof;
    hide Decimal;
    hide DigitRun;
    hide Cut;
    hide NumberText;
    hide Sign;
    NumberFirst(v, tail);
    NumberTextIs(v, tail);
    DigitsAre(Whole(v.scaled, DECIMALS));
    PaddedAre(v.scaled, DECIMALS);
    RunOf(ps, tail);
    assert u[1..] == ps + tail && u[1..1 + |ps|] == ps && u[1 + |ps|..] == tail;
    CutNumber(v.negative, ds, u);
    StrtofIs(NumberText(v) + tail, v.negative, ds + u, ds, u, ps, tail);
  }

  lemma SkipToNumber(v: Number, tail: bytes)
    ensures SkipSeparators(NumberText(v) + tail) == NumberText(v) + tail
    ensures SkipSeparators([COMMA, SPACE] + (NumberText(v) + tail)) == NumberText(v) + tail
  {
    NumberFirst(v, tail);
    hide NumberText;
    var s := NumberText(v) + tail;
    var t := [COMMA, SPACE] + s;
    assert t[1..][1..] == s;
  }

  lemma ReadFeatureStep(s: bytes, v: Number, rest: bytes, n: nat)
    requires n > 0 && |s| > 0 && s[0] != NUL
    requires var u := SkipSeparators(s); |u| > 0 && u[0] != NUL && u[0] != RBRACKET && Strtof(u) == Some((v, rest))
    ensures var (fs, rest') := ReadFeature(rest, n - 1); ReadFeature(s, n) == ([v] + fs, rest')
  {
    hide Strtof;
    hide SkipSeparators;
  }

  lemma FeatureTextIs(fs: seq<Number>, tail: bytes)
    requires |fs| > 0
    ensures FeatureText(fs, tail) == NumberText(fs[0]) + if |fs| == 1 then tail else [COMMA, SPACE] + FeatureText(fs[1..], tail)
  {
  }

  /** One number behind an optional separator. */
  lemma OneNumber(v: Number, rest: bytes, n: nat, gap: bytes)
    requires n > 0 && FixedPoint(v) && EndsNumber(rest) && (gap == [] || gap == [COMMA, SPACE])
    ensures var (fs, rest') := ReadFeature(rest, n - 1);
            ReadFeature(gap + (NumberText(v) + rest), n) == ([v] + fs, rest')
  {
    var s := gap + (NumberText(v) + rest);
    StrtofRoundTrip(v, rest);
    SkipToNumber(v, rest);
    NumberFirst(v, rest);
    if gap == [] { assert s == NumberText(v) + rest; }
    hide NumberText;
    hide Strtof;
    hide SkipSeparators;
    hide ReadFeature;
    ReadFeatureStep(s, v, rest, n);
  }

  /** What follows the first number. */
  function RestText(fs: seq<Number>, tail: bytes): (s: bytes)
    requires |fs| > 0
  {
    if |fs| == 1 then tail else [COMMA, SPACE] + FeatureText(fs[1..], tail)
  }

  lemma RestEnds(fs: seq<Number>, tail: bytes)
    requires |fs| > 0 && |tail| > 0 && tail[0] == RBRACKET
    ensures EndsNumber(RestText(fs, tail)) && FeatureText(fs, tail) == NumberText(fs[0]) + RestText(fs, tail)
    ensures RestText(fs, tail) == if |fs| == 1 then tail else [COMMA, SPACE] + FeatureText(fs[1..], tail)
  {
    hide NumberText;
  }

  ghost predicate AllFixed(fs: seq<Number>) {
    forall v :: v in fs ==> FixedPoint(v)
  }

  lemma FixedParts(fs: seq<Number>)
    requires |fs| > 0 && AllFixed(fs)
    ensures FixedPoint(fs[0]) && AllFixed(fs[1..]) && fs == [fs[0]] + fs[1..]
    ensures |fs| == 1 ==> fs == [fs[0]] + []
  {
    assert fs[0] in fs;
    hide FixedPoint;
  }

  /** Numbers written one behind the other are read back. */
  lemma {:induction false} FeatureRoundTrip(fs: seq<Number>, tail: bytes, n: nat, gap: bytes)
    requires n == |fs| > 0 && |tail| > 0 && tail[0] == RBRACKET && (gap == [] || gap == [COMMA, SPACE])
    requires AllFixed(fs)
    ensures ReadFeature(gap + FeatureText(fs, tail), n) == (fs, tail)
    decreases |fs|
  {
    hide *;
    RestEnds(fs, tail);
    FixedParts(fs);
    OneNumber(fs[0], RestText(fs, tail), n, gap);
    if |fs| == 1 {
      ReadNone(tail);
    } else {
      FeatureRoundTrip(fs[1..], tail, n - 1, [COMMA, SPACE]);
    }
  }

  lemma ReadNone(s: bytes)
    ensures ReadFeature(s, 0) == ([], s)
  {
  }

  // ---- rounds of the loader ----

  /** Looking for the feature key behind an identity. */
  lemma FindFeature(x: bytes)
    ensures Find(AFTER_ID + (FEATURE + (BEFORE_FEATURE + x)), FEATURE) == Some(FEATURE + (BEFORE_FEATURE + x))
    ensures var u := FEATURE + (BEFORE_FEATURE + x); FindChar(u[|FEATURE|..], LBRACKET) == Some([LBRACKET] + x)
  {
    assert QUOTE !in AFTER_ID && NUL !in AFTER_ID;
    NoQuoteNoStart(AFTER_ID, FEATURE[1]);
    FindGap(AFTER_ID, FEATURE + (BEFORE_FEATURE + x), FEATURE);
    FindHere(FEATURE, BEFORE_FEATURE + x);
    var u := FEATURE + (BEFORE_FEATURE + x);
    assert u[|FEATURE|..] == BEFORE_FEATURE + x;
    assert BEFORE_FEATURE + x == [SPACE] + ([LBRACKET] + x);
    FindCharGap([SPACE], [LBRACKET] + x, LBRACKET);
    FirstChar(LBRACKET, x);
    hide Find;
    hide FindChar;
  }

  lemma FeatureIs(db: Db, count: nat, id: bytes, p: bytes, u: bytes, x: bytes, fs: seq<Number>, t: bytes)
    requires Find(p, FEATURE) == Some(u) && FindChar(u[|FEATURE|..], LBRACKET) == Some([LBRACKET] + x)
    requires ReadFeature(x, DIM) == (fs, [RBRACKET] + t) && |fs| == DIM
    ensures var (db', ok) := Registered(db, id, fs);
            LoadFeature(db, count, id, p) == Go(db', if ok then count + 1 else count, t)
  {
    assert ([LBRACKET] + x)[1..] == x && ([RBRACKET] + t)[1..] == t;
    FirstChar(RBRACKET, t);
    hide Find;
    hide FindChar;
    hide ReadFeature;
    hide Registered;
  }

  lemma ReadPart(db: Db, count: nat, e: Entry, tail: bytes)
    requires ValidEntry(e)
    ensures var (db', ok) := Registered(db, e.identity, e.feature);
            LoadFeature(db, count, e.identity, FeaturePart(e.feature, tail)) == Go(db', if ok then count + 1 else count, CLOSE + tail)
  {
    var t := [RBRACKET] + (CLOSE + tail);
    var x := FeatureText(e.feature, t);
    hide FeatureText;
    hide LoadFeature;
    hide Find;
    hide FindChar;
    hide ReadFeature;
    hide Registered;
    FindFeature(x);
    FeatureRoundTrip(e.feature, t, DIM, []);
    assert [] + x == x;
    FeatureIs(db, count, e.identity, FeaturePart(e.feature, tail), FEATURE + (BEFORE_FEATURE + x), x, e.feature, CLOSE + tail);
  }

  lemma FirstChar(c: byte, t: bytes)
    requires c != NUL
    ensures FindChar([c] + t, c) == Some([c] + t)
  {
  }

  lemma LoadRoundSame(db: Db, count: nat, p: bytes, q: bytes)
    requires Find(p, IDENTITY) == Find(q, IDENTITY)
    ensures LoadRound(db, count, p) == LoadRound(db, count, q)
  {
    hide Find;
    hide FindChar;
    hide ReadIdentity;
    hide LoadFeature;
  }

  /** The loader sees only what its search finds. */
  lemma LoadSame(db: Db, count: nat, p: bytes, q: bytes)
    requires Find(p, IDENTITY) == Find(q, IDENTITY)
    ensures Load(db, count, p) == Load(db, count, q)
  {
    LoadRoundSame(db, count, p, q);
    if |p| == 0 || p[0] == NUL { NothingLeft(db, count, p); }
    if |q| == 0 || q[0] == NUL { NothingLeft(db, count, q); }
    hide Find;
    hide LoadRound;
  }

  lemma NothingLeft(db: Db, count: nat, p: bytes)
    requires |p| == 0 || p[0] == NUL
    ensures LoadRound(db, count, p) == Stop(db, count)
  {
  }

  /** Text that belongs to numbers. */
  predicate Plain(g: bytes) {
    QUOTE !in g && NUL !in g
  }

  lemma {:induction false} DigitsPlain(n: nat)
    ensures Plain(Digits(n))
  {
    if n >= 10 { DigitsPlain(n / 10); }
  }

  lemma {:induction false} PaddedPlain(n: nat, k: nat)
    ensures Plain(Padded(n, k))
    decreases k
  {
    if k > 0 { PaddedPlain(n / 10, k - 1); }
  }

  lemma NumberPlain(v: Number)
    ensures Plain(NumberText(v))
  {
    DigitsPlain(Whole(v.scaled, DECIMALS));
    PaddedPlain(v.scaled, DECIMALS);
    hide Digits;
    hide Padded;
    hide Whole;
  }

  /** A search for the next identity runs over the numbers of a feature. */
  lemma {:induction false} FindOverFeature(fs: seq<Number>, tail: bytes)
    ensures Find(FeatureText(fs, tail), IDENTITY) == Find(tail, IDENTITY)
    decreases |fs|
  {
    if |fs| > 0 {
      FeatureTextIs(fs, tail);
      NumberPlain(fs[0]);
      hide FeatureText;
      hide Find;
      hide NumberText;
      NoQuoteNoStart(NumberText(fs[0]), IDENTITY[1]);
      if |fs| == 1 {
        FindGap(NumberText(fs[0]), tail, IDENTITY);
      } else {
        var rest := FeatureText(fs[1..], tail);
        FindGap(NumberText(fs[0]), [COMMA, SPACE] + rest, IDENTITY);
        FindGap([COMMA, SPACE], rest, IDENTITY);
        FindOverFeature(fs[1..], tail);
      }
    }
  }

  /** The identity key is found in front of an entry. */
  lemma FindEntryText(e: Entry, tail: bytes)
    ensures var y := EscapedId(e.identity, [QUOTE] + FeaturePart(e.feature, tail));
            Find(EntryText(e, tail), IDENTITY) == Some(IDENTITY + (BEFORE_ID + y))
  {
    var y := EscapedId(e.identity, [QUOTE] + FeaturePart(e.feature, tail));
    hide FeaturePart;
    hide EscapedId;
    assert QUOTE !in OPEN && NUL !in OPEN;
    NoQuoteNoStart(OPEN, IDENTITY[1]);
    FindGap(OPEN, IDENTITY + (BEFORE_ID + y), IDENTITY);
    FindHere(IDENTITY, BEFORE_ID + y);
    hide Find;
  }

  /** What the loader has in hand behind the identity key. */
  lemma FindOpening(y: bytes)
    ensures var u := IDENTITY + (BEFORE_ID + y); FindChar(u[|IDENTITY|..], QUOTE) == Some([QUOTE] + y)
  {
    var u := IDENTITY + (BEFORE_ID + y);
    assert u[|IDENTITY|..] == BEFORE_ID + y;
    assert BEFORE_ID + y == [SPACE] + ([QUOTE] + y);
    FindCharGap([SPACE], [QUOTE] + y, QUOTE);
    FirstChar(QUOTE, y);
    hide FindChar;
  }

  lemma RoundIs(db: Db, count: nat, p: bytes, u: bytes, w: bytes, id: bytes, x: bytes)
    requires Find(p, IDENTITY) == Some(u) && FindChar(u[|IDENTITY|..], QUOTE) == Some([QUOTE] + w)
    requires ReadIdentity(w, MAX_STRING_LEN - 1) == (id, [QUOTE] + x)
    ensures LoadRound(db, count, p) == if id == [] then Go(db, count, x) else LoadFeature(db, count, id, x)
  {
    assert ([QUOTE] + w)[1..] == w && ([QUOTE] + x)[1..] == x;
    hide Find;
    hide FindChar;
    hide ReadIdentity;
    hide LoadFeature;
  }

  /** A round over an entry's text. */
  lemma EntryRound(db: Db, count: nat, e: Entry, tail: bytes)
    requires ValidEntry(e)
    ensures var (db', ok) := Registered(db, e.identity, e.feature);
            LoadRound(db, count, EntryText(e, tail)) ==
            if e.identity == [] then Go(db, count, FeaturePart(e.feature, tail))
            else Go(db', if ok then count + 1 else count, CLOSE + tail)
  {
    var x := FeaturePart(e.feature, tail);
    var y := EscapedId(e.identity, [QUOTE] + x);
    hide FeaturePart;
    hide EscapedId;
    hide EntryText;
    hide LoadRound;
    hide LoadFeature;
    hide Registered;
    hide Find;
    hide FindChar;
    hide ReadIdentity;
    FindEntryText(e, tail);
    FindOpening(y);
    IdentityRoundTrip(e.identity, [QUOTE] + x, MAX_STRING_LEN - 1);
    RoundIs(db, count, EntryText(e, tail), IDENTITY + (BEFORE_ID + y), y, e.identity, x);
    ReadPart(db, count, e, tail);
  }

  /** Behind an entry, whether its feature was read or not, the search goes on with the next. */
  lemma BehindEntry(e: Entry, tail: bytes)
    ensures Find(CLOSE + tail, IDENTITY) == Find(tail, IDENTITY)
    ensures Find(FeaturePart(e.feature, tail), IDENTITY) == Find(tail, IDENTITY)
  {
    var t := [RBRACKET] + (CLOSE + tail);
    var z := FeatureText(e.feature, t);
    assert QUOTE !in CLOSE && QUOTE !in AFTER_ID && QUOTE !in BEFORE_FEATURE && QUOTE !in [RBRACKET];
    NoQuoteNoStart(CLOSE, IDENTITY[1]);
    NoQuoteNoStart([RBRACKET], IDENTITY[1]);
    NoQuoteNoStart(AFTER_ID, IDENTITY[1]);
    NoQuoteNoStart(BEFORE_FEATURE, IDENTITY[1]);
    assert NoStart(FEATURE, IDENTITY[1]);
    hide Find;
    hide FeatureText;
    hide NoStart;
    FindGap(CLOSE, tail, IDENTITY);
    FindGap(AFTER_ID, FEATURE + (BEFORE_FEATURE + z), IDENTITY);
    FindGap(FEATURE, BEFORE_FEATURE + z, IDENTITY);
    FindGap(BEFORE_FEATURE, z, IDENTITY);
    FindOverFeature(e.feature, t);
    FindGap([RBRACKET], CLOSE + tail, IDENTITY);
  }

  lemma LoadStep(db: Db, count: nat, e: Entry, tail: bytes)
    requires ValidEntry(e)
    ensures var (db', ok) := Registered(db, e.identity, e.feature);
            Load(db, count, EntryText(e, tail)) ==
            if e.identity == [] then Load(db, count, tail) else Load(db', if ok then count + 1 else count, tail)
  {
    hide *;
    EntryRound(db, count, e, tail);
    BehindEntry(e, tail);
    var (db', ok) := Registered(db, e.identity, e.feature);
    EntryNotEmpty(e, tail);
    LoadGoes(db, count, EntryText(e, tail));
    if e.identity == [] {
      LoadSame(db, count, FeaturePart(e.feature, tail), tail);
    } else {
      LoadSame(db', if ok then count + 1 else count, CLOSE + tail, tail);
    }
  }

  lemma EntryNotEmpty(e: Entry, tail: bytes)
    ensures |EntryText(e, tail)| > 0 && EntryText(e, tail)[0] != NUL
  {
    hide EscapedId;
    hide FeatureText;
  }

  lemma LoadGoes(db: Db, count: nat, p: bytes)
    requires |p| > 0 && p[0] != NUL
    ensures Load(db, count, p) ==
            match LoadRound(db, count, p) case Stop(db', count') => (db', count') case Go(db', count', q) => Load(db', count', q)
  {
    hide LoadRound;
  }

  // ---- whole files ----

  /** Entries with an identity. */
  function Named(es: Db): (r: Db)
    ensures |r| <= |es|
  {
    if |es| == 0 then [] else (if es[0].identity == [] then [] else [es[0]]) + Named(es[1..])
  }

  ghost predicate Loadable(db: Db, es: Db) {
    && |db| + |es| <= MAX_FACES
    && (forall e :: e in es ==> ValidEntry(e) && e.active)
    && Distinct(es)
    && forall d, e :: d in db && e in es ==> d.identity != e.identity
  }

  lemma RegisterNew(db: Db, es: Db)
    requires |es| > 0 && Loadable(db, es)
    ensures Registered(db, es[0].identity, es[0].feature) == (db + [es[0]], true)
    ensures Loadable(db + [es[0]], es[1..]) && Loadable(db, es[1..])
  {
    var e := es[0];
    assert e in es;
    var i := FindEntry(db, e.identity, 0);
    assert forall k :: 0 <= k < |db| ==> db[k] in db;
    hide FindEntry;
    hide ValidEntry;
    forall x | x in es[1..] ensures x in es && x.identity != e.identity && x.active {
      var k :| 0 <= k < |es[1..]| && es[1..][k] == x;
      assert es[k + 1] == x;
      assert es[0].active && es[k + 1].active by { assert x in es; }
    }
    StoredShort(e);
  }

  lemma StoredShort(e: Entry)
    requires ValidEntry(e) && e.active
    ensures Entry(Stored(e.identity), e.feature, true) == e
  {
  }

  lemma EntriesTextIs(es: Db, tail: bytes)
    requires |es| > 0
    ensures EntriesText(es, tail) == EntryText(es[0], if |es| == 1 then tail else BETWEEN + EntriesText(es[1..], tail))
  {
    hide EntryText;
  }

  lemma FooterLast()
    ensures Find(FOOTER, IDENTITY) == None
  {
    assert FOOTER + [] == FOOTER;
    NoQuoteNoStart(FOOTER, IDENTITY[1]);
    FindGap(FOOTER, [], IDENTITY);
  }

  lemma LoadNothing(db: Db, count: nat, p: bytes)
    requires Find(p, IDENTITY) == None
    ensures Load(db, count, p) == (db, count)
  {
  }

  lemma FindBetween(t: bytes)
    ensures Find(BETWEEN + t, IDENTITY) == Find(t, IDENTITY)
  {
    NoQuoteNoStart(BETWEEN, IDENTITY[1]);
    FindGap(BETWEEN, t, IDENTITY);
  }

  lemma NamedStep(es: Db)
    requires |es| > 0
    ensures Named(es) == (if es[0].identity == [] then Named(es[1..]) else [es[0]] + Named(es[1..]))
  {
    assert [] + Named(es[1..]) == Named(es[1..]);
  }

  lemma FirstValid(db: Db, es: Db)
    requires |es| > 0 && Loadable(db, es)
    ensures ValidEntry(es[0])
  {
    assert es[0] in es;
    hide ValidEntry;
  }

  lemma NoEntries(db: Db, es: Db)
    requires |es| == 0
    ensures EntriesText(es, FOOTER) == FOOTER && Named(es) == [] && db + Named(es) == db
  {
  }

  /** The search goes on with the entries that follow. */
  lemma NextEntries(es: Db)
    requires |es| > 0
    ensures var tail := if |es| == 1 then FOOTER else BETWEEN + EntriesText(es[1..], FOOTER);
            && EntriesText(es, FOOTER) == EntryText(es[0], tail)
            && Find(tail, IDENTITY) == Find(EntriesText(es[1..], FOOTER), IDENTITY)
  {
    EntriesTextIs(es, FOOTER);
    if |es| == 1 { assert EntriesText(es[1..], FOOTER) == FOOTER; }
    hide EntriesText;
    FindBetween(EntriesText(es[1..], FOOTER));
    hide Find;
  }

  lemma {:induction false} LoadEntries(db: Db, count: nat, es: Db)
    requires Loadable(db, es)
    ensures Load(db, count, EntriesText(es, FOOTER)) == (db + Named(es), count + |Named(es)|)
    decreases |es|
  {
    hide *;
    if |es| == 0 {
      NoEntries(db, es);
      FooterLast();
      LoadNothing(db, count, FOOTER);
    } else {
      var e := es[0];
      var more := EntriesText(es[1..], FOOTER);
      var tail := if |es| == 1 then FOOTER else BETWEEN + more;
      FirstValid(db, es);
      NextEntries(es);
      RegisterNew(db, es);
      NamedStep(es);
      LoadStep(db, count, e, tail);
      LoadSame(db, count, tail, more);
      LoadSame(db + [e], count + 1, tail, more);
      if e.identity == [] {
        LoadEntries(db, count, es[1..]);
      } else {
        LoadEntries(db + [e], count + 1, es[1..]);
        Concat(db, [e], Named(es[1..]));
      }
    }
  }

  lemma ConsLoadable(e: Entry, a: Db)
    requires ValidEntry(e) && e.active && Loadable([], a) && |a| < MAX_FACES
    requires forall x :: x in a ==> x.identity != e.identity
    ensures Loadable([], [e] + a)
  {
    hide ValidEntry;
    var r := [e] + a;
    forall i, j | 0 <= i < j < |r| && r[i].active && r[j].active ensures r[i].identity != r[j].identity {
      assert r[j] == a[j - 1] && a[j - 1] in a;
      if i > 0 { assert r[i] == a[i - 1]; }
    }
  }

  lemma RestKept(db: Db)
    requires Kept(db) && |db| > 0
    ensures Kept(db[1..]) && ValidEntry(db[0])
    ensures db[0].active ==> forall e :: e in db[1..] && e.active ==> e.identity != db[0].identity
  {
    hide ValidEntry;
    assert db[0] in db;
    var rest := db[1..];
    forall i, j | 0 <= i < j < |rest| && rest[i].active && rest[j].active ensures rest[i].identity != rest[j].identity {
      assert db[i + 1] == rest[i] && db[j + 1] == rest[j];
    }
    forall e | e in rest && e.active ensures e in db && (db[0].active ==> e.identity != db[0].identity) {
      var k :| 0 <= k < |rest| && rest[k] == e;
      assert db[k + 1] == e;
    }
  }

  lemma ActiveStep(db: Db)
    requires |db| > 0
    ensures Active(db) == if db[0].active then [db[0]] + Active(db[1..]) else Active(db[1..])
  {
    assert [] + Active(db[1..]) == Active(db[1..]);
  }

  lemma NoneLoadable()
    ensures Loadable([], [])
  {
  }

  lemma {:induction false} ActiveLoadable(db: Db)
    requires Kept(db)
    ensures Loadable([], Active(db))
    decreases |db|
  {
    hide ValidEntry;
    hide Loadable;
    hide Distinct;
    if |db| == 0 {
      NoneLoadable();
    } else {
      RestKept(db);
      ActiveLoadable(db[1..]);
      ActiveStep(db);
      hide Active;
      if db[0].active { ConsLoadable(db[0], Active(db[1..])); }
    }
  }

  lemma HeaderSkipped(t: bytes)
    ensures Find(HEADER + t, IDENTITY) == Find(t, IDENTITY)
  {
    assert NoStart(HEADER, IDENTITY[1]);
    FindGap(HEADER, t, IDENTITY);
  }

  // ---- how long a file is ----

  lemma {:induction false} DigitsShort(n: nat, k: nat)
    requires k > 0 && n < Ten(k)
    ensures |Digits(n)| <= k
    decreases k
  {
    if n >= 10 { DigitsShort(n / 10, k - 1); }
  }

  lemma NumberShort(v: Number)
    requires FixedPoint(v)
    ensures |NumberText(v)| <= 49
  {
    DigitsShort(Whole(v.scaled, DECIMALS), 39);
    hide Whole;
    hide Digits;
    hide Padded;
    hide Ten;
  }

  lemma {:induction false} FeatureShort(fs: seq<Number>, tail: bytes)
    requires AllFixed(fs)
    ensures |FeatureText(fs, tail)| <= 51 * |fs| + |tail|
    decreases |fs|
  {
    hide *;
    if |fs| == 0 {
      NoFeature(fs, tail);
    } else {
      FixedParts(fs);
      FeatureTextIs(fs, tail);
      NumberShort(fs[0]);
      FeatureShort(fs[1..], tail);
    }
  }

  lemma NoFeature(fs: seq<Number>, tail: bytes)
    requires |fs| == 0
    ensures FeatureText(fs, tail) == tail
  {
  }

  lemma {:induction false} IdentityShort(id: bytes, tail: bytes)
    ensures |EscapedId(id, tail)| <= 2 * |id| + |tail|
    decreases |id|
  {
    if |id| > 0 { IdentityShort(id[1..], tail); }
  }

  lemma EntryShort(e: Entry, tail: bytes)
    requires ValidEntry(e)
    ensures |EntryText(e, tail)| <= 6700 + |tail|
  {
    var x := FeaturePart(e.feature, tail);
    FeatureShort(e.feature, [RBRACKET] + (CLOSE + tail));
    IdentityShort(e.identity, [QUOTE] + x);
    hide FeatureText;
    hide EscapedId;
    hide FixedPoint;
  }

  lemma {:induction false} EntriesShort(es: Db, tail: bytes)
    requires forall e :: e in es ==> ValidEntry(e)
    ensures |EntriesText(es, tail)| <= 6702 * |es| + |tail|
    decreases |es|
  {
    hide ValidEntry;
    hide EntryText;
    if |es| > 0 {
      assert es[0] in es;
      EntriesShort(es[1..], tail);
      EntryShort(es[0], if |es| == 1 then tail else BETWEEN + EntriesText(es[1..], tail));
    }
  }

  /** Every database saves within the 4 MiB that the loader accepts. */
  lemma SavedFits(db: Db)
    requires Kept(db)
    ensures 0 < |Saved(db)| <= FILE_LIMIT
  {
    hide ValidEntry;
    hide Active;
    EntriesShort(Active(db), FOOTER);
    hide EntriesText;
  }

  /** Loading a saved database into an empty recogniser gives back exactly its active entries with an
      identity of at least one character, in their order. */
  lemma DatabaseRoundTrip(db: Db)
    requires Kept(db)
    ensures Loaded([], Saved(db)) == (Named(Active(db)), Named(Active(db)) != [])
  {
    var t := EntriesText(Active(db), FOOTER);
    SavedFits(db);
    ActiveLoadable(db);
    HeaderSkipped(t);
    LoadSame([], 0, HEADER + t, t);
    LoadEntries([], 0, Active(db));
    assert [] + Named(Active(db)) == Named(Active(db));
    hide Load;
    hide EntriesText;
    hide Find;
    hide Active;
    hide Named;
    hide Kept;
  }

  lemma {:induction false} NamedAll(es: Db)
    ensures Named(es) == es <==> forall e :: e in es ==> e.identity != []
    decreases |es|
  {
    if |es| > 0 {
      NamedAll(es[1..]);
      assert es == [es[0]] + es[1..];
      if es[0].identity == [] {
        assert es[0] in es;
        NamedStep(es);
        assert |Named(es)| < |es|;
      }
    }
  }

  /** So the round trip is exact if and only if no active identity is empty. */
  lemma ExactIffNamed(db: Db)
    requires Kept(db)
    ensures Loaded([], Saved(db)).0 == Active(db) <==> forall e :: e in Active(db) ==> e.identity != []
  {
    DatabaseRoundTrip(db);
    NamedAll(Active(db));
    hide Loaded;
    hide Saved;
    hide Named;
    hide Active;
    hide Kept;
  }
}
