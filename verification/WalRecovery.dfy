/** Replaying the write-ahead log when the database is opened
    (recover_wal_on_open of src/iai_mcp/lillibrain/wal.py). */
module WalRecovery {
  import opened WalChecksum

  const MAGIC: Word := 0x377F_0683
  const FORMAT_VERSION: Word := 3_007_000
  const PAGE_SIZE: Word := 8192

  /** A page, as its big-endian words. */
  type Page = p: seq<Word> | |p| == 2048 witness seq(2048, i => 0)

  datatype Header =
    | ShortHeader
    | Header(magic: Word, version: Word, pageSize: Word, checkpointSeq: Word, salt1: Word, salt2: Word, sum: Sum)

  datatype Frame = Frame(pageNo: Word, dbSizeAfter: Word, salt1: Word, salt2: Word, sum: Sum, data: Page)

  /** What a frame's place in the file holds: a frame's worth of bytes, or fewer. */
  datatype Slot = Whole(frame: Frame) | Short

  datatype Sidecar = Missing | Sidecar(header: Header, slots: seq<Slot>)

  /** The pages of the main file. */
  type Pages = map<Word, Page>

  // ---- Which frames count ----

  function HeaderSum(h: Header): Sum
    requires h.Header?
  {
    Checksum([h.magic, h.version, h.pageSize, h.checkpointSeq, h.salt1, h.salt2], Sum(0, 0))
  }

  predicate GoodHeader(h: Header) {
    h.Header? && h.magic == MAGIC && h.pageSize == PAGE_SIZE && h.sum == HeaderSum(h)
  }

  /** The checksum that a frame must carry after a frame with checksum `before`. */
  function Stamp(pageNo: Word, dbSizeAfter: Word, data: Page, before: Sum): Sum {
    Checksum([pageNo, dbSizeAfter] + data, before)
  }

  /** The running checksum before slot i. */
  function Running(h: Header, slots: seq<Slot>, i: nat): Sum
    requires h.Header? && i <= |slots| && (i > 0 ==> slots[i - 1].Whole?)
  {
    if i == 0 then h.sum else slots[i - 1].frame.sum
  }

  predicate ChainedAt(h: Header, slots: seq<Slot>, i: nat)
    requires h.Header? && i < |slots|
  {
    && slots[i].Whole?
    && (i > 0 ==> slots[i - 1].Whole?)
    && var f := slots[i].frame;
    f.salt1 == h.salt1 && f.salt2 == h.salt2 &&
    f.sum == Stamp(f.pageNo, f.dbSizeAfter, f.data, Running(h, slots, i))
  }

  /** The first n frames are of this log, and their checksums form an unbroken chain. */
  predicate Chain(h: Header, slots: seq<Slot>, n: nat) {
    h.Header? && n <= |slots| && forall i :: 0 <= i < n ==> ChainedAt(h, slots, i)
  }

  /** Where the chain breaks, or the file ends. */
  function ChainEnd(h: Header, slots: seq<Slot>, i: nat): (n: nat)
    requires Chain(h, slots, i)
    ensures i <= n && Chain(h, slots, n)
    ensures n == |slots| || !ChainedAt(h, slots, n)
    decreases |slots| - i
  {
    if i < |slots| && ChainedAt(h, slots, i) then ChainEnd(h, slots, i + 1) else i
  }

  predicate IsCommit(s: Slot) {
    s.Whole? && s.frame.dbSizeAfter > 0
  }

  /** The end of the last transaction that is complete among the first n slots. */
  function CommitEnd(slots: seq<Slot>, n: nat): (m: nat)
    requires n <= |slots|
    ensures m <= n && (m > 0 ==> IsCommit(slots[m - 1]))
    ensures forall i :: m <= i < n ==> !IsCommit(slots[i])
  {
    if n == 0 || IsCommit(slots[n - 1]) then n else CommitEnd(slots, n - 1)
  }

  /** How many frames are replayed. */
  function ReplayEnd(h: Header, slots: seq<Slot>): (m: nat)
    requires h.Header?
    ensures Chain(h, slots, m) && (m > 0 ==> IsCommit(slots[m - 1]))
  {
    CommitEnd(slots, ChainEnd(h, slots, 0))
  }

  /** The pages after the frames are written over them in order. */
  function Replay(db: Pages, slots: seq<Slot>): Pages {
    if slots == [] then db
    else
      var before := Replay(db, slots[..|slots| - 1]);
      match slots[|slots| - 1]
      case Short => before
      case Whole(f) => before[f.pageNo := f.data]
  }

  /** The main file once the sidecar is recovered. */
  function Recovered(db: Pages, side: Sidecar): Pages {
    if side.Missing? || !GoodHeader(side.header) then db
    else Replay(db, side.slots[..ReplayEnd(side.header, side.slots)])
  }

  lemma {:induction false} ReplayMerge(db: Pages, slots: seq<Slot>)
    ensures Replay(db, slots) == db + Replay(map[], slots)
  {
    if slots != [] {
      ReplayMerge(db, slots[..|slots| - 1]);
    }
  }

  lemma {:induction false} ReplayAppend(db: Pages, a: seq<Slot>, b: seq<Slot>)
    ensures Replay(db, a + b) == Replay(Replay(db, a), b)
  {
    if b == [] {
      assert a + b == a;
    } else {
      ReplayAppend(db, a, b[..|b| - 1]);
      assert (a + b)[..|a + b| - 1] == a + b[..|b| - 1];
    }
  }

  // ---- recover_wal_on_open ----

  /** `readable` is whether the sidecar could be opened. */
  method RecoverWalOnOpen(db: Pages, side: Sidecar, readable: bool) returns (db': Pages, side': Sidecar)
    ensures side.Missing? || !readable ==> db' == db && side' == side
    ensures readable ==> db' == Recovered(db, side) && side' == Missing
  {
    if side.Missing? {
      return db, side;
    }
    if !readable {
      return db, side;
    }
    if side.header.ShortHeader? || side.header.magic != MAGIC || side.header.pageSize != PAGE_SIZE {
      return db, Missing;
    }
    if side.header.sum != HeaderSum(side.header) {
      return db, Missing;
    }
    var committed := ScanFrames(side.header, side.slots);
    ReplayMerge(db, side.slots[..ReplayEnd(side.header, side.slots)]);
    db' := WritePages(db, committed);
    side' := Missing;
  }

  /** The scan: `pending` holds the current transaction, `committed` all complete ones. */
  method ScanFrames(h: Header, slots: seq<Slot>) returns (committed: Pages)
    requires GoodHeader(h)
    ensures committed == Replay(map[], slots[..ReplayEnd(h, slots)])
  {
    hide Replay;
    hide CommitEnd;
    hide Stamp;
    var pending: Pages := map[];
    committed := map[];
    var running := h.sum;
    var i := 0;
    ScanStart(slots);
    while i < |slots|
      invariant Chain(h, slots, i) && (i > 0 ==> slots[i - 1].Whole?) && running == Running(h, slots, i)
      invariant ChainEnd(h, slots, i) == ChainEnd(h, slots, 0)
      invariant committed == Replay(map[], slots[..CommitEnd(slots, i)])
      invariant pending == Replay(map[], slots[CommitEnd(slots, i)..i])
    {
      if slots[i].Short? {
        break;
      }
      var f := slots[i].frame;
      if f.salt1 != h.salt1 || f.salt2 != h.salt2 {
        break;
      }
      if Stamp(f.pageNo, f.dbSizeAfter, f.data, running) != f.sum {
        break;
      }
      running := f.sum;
      assert ChainedAt(h, slots, i);
      ScanStep(slots, i);
      pending := pending[f.pageNo := f.data];
      i := i + 1;
      if f.dbSizeAfter > 0 {
        committed := committed + pending;
        pending := map[];
      }
    }
    assert ChainEnd(h, slots, i) == i;
  }

  lemma {:induction false} ScanStart(slots: seq<Slot>)
    ensures CommitEnd(slots, 0) == 0
    ensures Replay(map[], slots[..0]) == map[]
    ensures forall i :: 0 <= i <= |slots| ==> Replay(map[], slots[i..i]) == map[]
  {
  }

  lemma {:induction false} ScanStep(slots: seq<Slot>, i: nat)
    requires i < |slots| && slots[i].Whole?
    ensures var m, f := CommitEnd(slots, i), slots[i].frame;
            var pending := Replay(map[], slots[m..i])[f.pageNo := f.data];
            && pending == Replay(map[], slots[m..i + 1])
            && Replay(map[], slots[..m]) + pending == Replay(map[], slots[..i + 1])
            && Replay(map[], slots[i + 1..i + 1]) == map[]
            && CommitEnd(slots, i + 1) == if f.dbSizeAfter > 0 then i + 1 else m
  {
    var m := CommitEnd(slots, i);
    assert slots[m..i + 1][..i - m] == slots[m..i];
    assert slots[..i + 1] == slots[..m] + slots[m..i + 1];
    ReplayAppend(map[], slots[..m], slots[m..i + 1]);
    ReplayMerge(Replay(map[], slots[..m]), slots[m..i + 1]);
  }

  /** One pwrite per page. */
  method WritePages(db: Pages, pages: Pages) returns (db': Pages)
    ensures db' == db + pages
  {
    db' := db;
    var rest := pages.Keys;
    while rest != {}
      invariant rest <= pages.Keys
      invariant db' == db + map p | p in pages && p !in rest :: pages[p]
    {
      var p :| p in rest;
      db' := db'[p := pages[p]];
      rest := rest - {p};
    }
  }

  // ---- Recovery may itself be interrupted ----

  /** b is a with some of the pages that the frames carry written, in part or in full,
      or overwritten by anything else. */
  ghost predicate Disturbed(a: Pages, b: Pages, slots: seq<Slot>)
  {
    forall p :: p !in Replay(map[], slots) ==> (p in a <==> p in b) && (p in a ==> a[p] == b[p])
  }

  /** However far an earlier recovery got with writing the pages, recovering again
      gives what an uninterrupted recovery gives. */
  lemma {:induction false} RecoveryRestarts(a: Pages, b: Pages, side: Sidecar)
    requires side.Sidecar? && GoodHeader(side.header)
    requires Disturbed(a, b, side.slots[..ReplayEnd(side.header, side.slots)])
    ensures Recovered(b, side) == Recovered(a, side)
  {
    var replayed := side.slots[..ReplayEnd(side.header, side.slots)];
    ReplayMerge(a, replayed);
    ReplayMerge(b, replayed);
  }

  lemma {:induction false} RecoveryIdempotent(db: Pages, side: Sidecar)
    ensures Recovered(Recovered(db, side), side) == Recovered(db, side)
  {
    if side.Sidecar? && GoodHeader(side.header) {
      ReplayMerge(db, side.slots[..ReplayEnd(side.header, side.slots)]);
      RecoveryRestarts(db, Recovered(db, side), side);
    }
  }

  // ---- What a crash leaves ----

  /** The first n slots are as they were. */
  ghost predicate Survives(slots: seq<Slot>, image: seq<Slot>, n: nat) {
    n <= |slots| && n <= |image| && image[..n] == slots[..n]
  }

  lemma {:induction false} ChainSurvives(h: Header, slots: seq<Slot>, image: seq<Slot>, n: nat)
    requires Chain(h, slots, n) && Survives(slots, image, n)
    ensures Chain(h, image, n)
  {
    forall i | 0 <= i < n
      ensures ChainedAt(h, image, i)
    {
      assert image[..n][i] == slots[..n][i] && ChainedAt(h, slots, i);
      if i > 0 {
        assert image[..n][i - 1] == slots[..n][i - 1];
      }
    }
  }

  lemma {:induction false} ChainEndFrom(h: Header, slots: seq<Slot>, n: nat)
    requires Chain(h, slots, n)
    ensures ChainEnd(h, slots, n) == ChainEnd(h, slots, 0)
  {
    if n > 0 {
      ChainEndFrom(h, slots, n - 1);
    }
  }

  /** Complete transactions that survive the crash are all replayed, whatever follows
      them in the file; after them only further complete transactions can be, of
      frames that continue the chain. */
  lemma {:induction false} CommittedSurvive(db: Pages, h: Header, slots: seq<Slot>, image: seq<Slot>, n: nat)
    requires GoodHeader(h) && Chain(h, slots, n) && (n > 0 ==> IsCommit(slots[n - 1])) && Survives(slots, image, n)
    ensures var m := ReplayEnd(h, image);
            && n <= m
            && Recovered(db, Sidecar(h, image)) == Replay(Replay(db, slots[..n]), image[n..m])
  {
    ChainSurvives(h, slots, image, n);
    ChainEndFrom(h, image, n);
    var m := ReplayEnd(h, image);
    assert n > 0 ==> image[..n][n - 1] == slots[..n][n - 1];
    assert image[..m] == image[..n] + image[n..m];
    ReplayAppend(db, image[..n], image[n..m]);
  }

  /** If the slot after them is not a frame that continues the chain, exactly they are. */
  lemma {:induction false} ExactlyCommitted(db: Pages, h: Header, slots: seq<Slot>, image: seq<Slot>, n: nat)
    requires GoodHeader(h) && Chain(h, slots, n) && (n > 0 ==> IsCommit(slots[n - 1])) && Survives(slots, image, n)
    requires n < |image| ==> !ChainedAt(h, image, n)
    ensures Recovered(db, Sidecar(h, image)) == Replay(db, slots[..n])
  {
    CommittedSurvive(db, h, slots, image, n);
    ChainSurvives(h, slots, image, n);
    ChainEndFrom(h, image, n);
  }

  /** A frame left over from before is taken for a continuation exactly if the running
      checksum it was written after is the one that it now follows. */
  lemma {:induction false} LeftoverAccepted(h: Header, slots: seq<Slot>, image: seq<Slot>, i: nat)
    requires i < |slots| && i < |image| && h.Header? && ChainedAt(h, slots, i) && image[i] == slots[i]
    requires i > 0 ==> image[i - 1].Whole?
    ensures ChainedAt(h, image, i) <==> Running(h, image, i) == Running(h, slots, i)
  {
    var f := slots[i].frame;
    if ChainedAt(h, image, i) {
      ChecksumInjective([f.pageNo, f.dbSizeAfter] + f.data, Running(h, image, i), Running(h, slots, i));
    }
  }

  /** A frame with two neighbouring words of its page damaged breaks the chain. */
  lemma {:induction false} DamagedFrameRejected(
    h: Header, slots: seq<Slot>, image: seq<Slot>, i: nat, at: nat, w0: Word, w1: Word)
    requires i < |slots| && i < |image| && h.Header? && ChainedAt(h, slots, i)
    requires i > 0 ==> image[i - 1] == slots[i - 1]
    requires at % 2 == 0 && at + 1 < 2048 && image[i].Whole?
    requires var f := slots[i].frame;
             && (w0 != f.data[at] || w1 != f.data[at + 1])
             && image[i].frame == f.(data := f.data[..at] + [w0, w1] + f.data[at + 2..])
    ensures !ChainedAt(h, image, i)
  {
    var f := slots[i].frame;
    var before, after := [f.pageNo, f.dbSizeAfter] + f.data[..at], f.data[at + 2..];
    assert [f.pageNo, f.dbSizeAfter] + f.data == before + [f.data[at], f.data[at + 1]] + after;
    assert [f.pageNo, f.dbSizeAfter] + image[i].frame.data == before + [w0, w1] + after;
    DamageDetected(before, f.data[at], f.data[at + 1], w0, w1, after, Running(h, slots, i));
  }

  /** A frame with its page number or its size of the database damaged breaks the chain. */
  lemma {:induction false} DamagedFrameHeadRejected(
    h: Header, slots: seq<Slot>, image: seq<Slot>, i: nat, p: Word, n: Word)
    requires i < |slots| && i < |image| && h.Header? && ChainedAt(h, slots, i)
    requires i > 0 ==> image[i - 1] == slots[i - 1]
    requires p != slots[i].frame.pageNo || n != slots[i].frame.dbSizeAfter
    requires image[i] == Whole(slots[i].frame.(pageNo := p, dbSizeAfter := n))
    ensures !ChainedAt(h, image, i)
  {
    var f := slots[i].frame;
    assert [f.pageNo, f.dbSizeAfter] + f.data == [] + [f.pageNo, f.dbSizeAfter] + f.data;
    assert [p, n] + f.data == [] + [p, n] + f.data;
    DamageDetected([], f.pageNo, f.dbSizeAfter, p, n, f.data, Running(h, slots, i));
  }

  /** A header that is taken for good has the right magic and page size, and none is with
      its version, its checkpoint number or its salts damaged. */
  lemma {:induction false} DamagedHeaderRejected(
    h: Header, version: Word, checkpointSeq: Word, salt1: Word, salt2: Word)
    requires GoodHeader(h)
    ensures version != h.version ==> !GoodHeader(h.(version := version))
    ensures checkpointSeq != h.checkpointSeq ==> !GoodHeader(h.(checkpointSeq := checkpointSeq))
    ensures salt1 != h.salt1 || salt2 != h.salt2 ==> !GoodHeader(h.(salt1 := salt1, salt2 := salt2))
    ensures h.magic == 0x377F_0683 && h.pageSize == 8192
  {
    if version != h.version {
      VersionDamaged(h, version);
    }
    if checkpointSeq != h.checkpointSeq {
      NumberDamaged(h, checkpointSeq);
    }
    if salt1 != h.salt1 || salt2 != h.salt2 {
      SaltsDamaged(h, salt1, salt2);
    }
    hide HeaderSum;
  }

  lemma {:induction false} VersionDamaged(h: Header, version: Word)
    requires h.Header? && version != h.version
    ensures HeaderSum(h.(version := version)) != HeaderSum(h)
  {
    var rest := [h.pageSize, h.checkpointSeq, h.salt1, h.salt2];
    DamageDetected([], h.magic, h.version, h.magic, version, rest, Sum(0, 0));
    assert [h.magic, h.version, h.pageSize, h.checkpointSeq, h.salt1, h.salt2] == [] + [h.magic, h.version] + rest;
    assert [h.magic, version, h.pageSize, h.checkpointSeq, h.salt1, h.salt2] == [] + [h.magic, version] + rest;
  }

  lemma {:induction false} NumberDamaged(h: Header, checkpointSeq: Word)
    requires h.Header? && checkpointSeq != h.checkpointSeq
    ensures HeaderSum(h.(checkpointSeq := checkpointSeq)) != HeaderSum(h)
  {
    var before, after := [h.magic, h.version], [h.salt1, h.salt2];
    DamageDetected(before, h.pageSize, h.checkpointSeq, h.pageSize, checkpointSeq, after, Sum(0, 0));
    assert [h.magic, h.version, h.pageSize, h.checkpointSeq, h.salt1, h.salt2] ==
           before + [h.pageSize, h.checkpointSeq] + after;
    assert [h.magic, h.version, h.pageSize, checkpointSeq, h.salt1, h.salt2] ==
           before + [h.pageSize, checkpointSeq] + after;
  }

  lemma {:induction false} SaltsDamaged(h: Header, salt1: Word, salt2: Word)
    requires h.Header? && (salt1 != h.salt1 || salt2 != h.salt2)
    ensures HeaderSum(h.(salt1 := salt1, salt2 := salt2)) != HeaderSum(h)
  {
    var before := [h.magic, h.version, h.pageSize, h.checkpointSeq];
    DamageDetected(before, h.salt1, h.salt2, salt1, salt2, [], Sum(0, 0));
    assert [h.magic, h.version, h.pageSize, h.checkpointSeq, h.salt1, h.salt2] == before + [h.salt1, h.salt2] + [];
    assert [h.magic, h.version, h.pageSize, h.checkpointSeq, salt1, salt2] == before + [salt1, salt2] + [];
  }
}
