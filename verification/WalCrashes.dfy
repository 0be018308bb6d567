/** What survives a crash of a database with a write-ahead log (src/iai_mcp/lillibrain/wal.py). */
module WalCrashes {
  import opened WalChecksum
  import opened WalRecovery
  import opened WriteAheadLog

  /** A crash may leave anything after the synced frames.  Opening the database again
      gives every committed transaction and otherwise only complete further ones whose
      frames continue the chain; none of those if the next slot does not. */
  lemma {:induction false} CrashKeepsCommits(w: WALWriter, db: Pages, image: seq<Slot>)
    requires w.Sound() && Survives(w.slots, image, w.committedNextFrame)
    ensures var n, m := w.committedNextFrame, ReplayEnd(w.header, image);
            && n <= m && Chain(w.header, image, m) && (m > 0 ==> IsCommit(image[m - 1]))
            && Recovered(db, Sidecar(w.header, image)) == Replay(w.View(db), image[n..m])
            && (n < |image| && !ChainedAt(w.header, image, n) ==>
                  Recovered(db, Sidecar(w.header, image)) == w.View(db))
            && (n == |image| ==> Recovered(db, Sidecar(w.header, image)) == w.View(db))
  {
    var n := w.committedNextFrame;
    ShorterChain(w.header, w.slots, w.nextFrame, n);
    CommittedSurvive(db, w.header, w.slots, image, n);
    if n == |image| || !ChainedAt(w.header, image, n) {
      ExactlyCommitted(db, w.header, w.slots, image, n);
    }
  }

  lemma {:induction false} ShorterChain(h: Header, slots: seq<Slot>, n: nat, m: nat)
    requires Chain(h, slots, n) && m <= n
    ensures Chain(h, slots, m)
  {
  }

  /** The same when the crash interrupts a checkpoint that copies pages, whatever became
      of the main file's pages that the committed frames carry. */
  lemma {:induction false} CheckpointMayCrash(w: WALWriter, db: Pages, half: Pages, image: seq<Slot>)
    requires w.Sound() && Survives(w.slots, image, w.committedNextFrame)
    requires Disturbed(db, half, w.slots[..w.committedNextFrame])
    ensures Recovered(half, Sidecar(w.header, image)) == Recovered(db, Sidecar(w.header, image))
  {
    var n, m := w.committedNextFrame, ReplayEnd(w.header, image);
    CrashKeepsCommits(w, map[], image);
    forall p ensures p in Replay(map[], w.slots[..n]) ==> p in Replay(map[], image[..m]) {
      ReplayMerge(Replay(map[], w.slots[..n]), image[n..m]);
    }
    RecoveryRestarts(db, half, Sidecar(w.header, image));
  }

  /** And when it interrupts the new start of the log after the copying: the file is cut
      off under the old header or no complete one, or the new header stands before the
      frames of the old log or a part of them.  Nothing is replayed over the copied pages. */
  lemma {:induction false} RestartMayCrash(w: WALWriter, db: Pages, salt2: Word, image: seq<Slot>, h: Header)
    requires w.Sound() && w.header.checkpointSeq + 1 < WORD_LIMIT
    requires image != [] ==> image[0] == Short || (w.nextFrame > 0 && image[0] == w.slots[0])
    ensures var next := MakeHeader(w.header.checkpointSeq + 1, w.header.salt1, salt2);
            Recovered(db, Sidecar(next, image)) == db
    ensures Recovered(db, Sidecar(h, [])) == db
    ensures !GoodHeader(h) ==> Recovered(db, Sidecar(h, image)) == db
  {
    if image != [] && image[0] != Short {
      StaleFrameRejected(w.header.checkpointSeq, w.header.salt1, w.header.salt2, salt2, w.slots, image);
    }
  }

  /** A frame of the old log does not continue the new header: its salt differs or, if
      the new salt repeats the old one, its checksum does, as the sums of the two headers
      differ and never meet again. */
  lemma {:induction false} StaleFrameRejected(
    checkpointSeq: Word, salt1: Word, salt2: Word, newSalt2: Word, slots: seq<Slot>, image: seq<Slot>)
    requires checkpointSeq + 1 < WORD_LIMIT && slots != [] && image != [] && image[0] == slots[0]
    requires ChainedAt(MakeHeader(checkpointSeq, salt1, salt2), slots, 0)
    ensures !ChainedAt(MakeHeader(checkpointSeq + 1, salt1, newSalt2), image, 0)
  {
    var f := slots[0].frame;
    HeaderSumsDiffer(checkpointSeq, salt1, salt2);
    hide HeaderSum;
    StampsDiffer(f, MakeHeader(checkpointSeq, salt1, salt2).sum, MakeHeader(checkpointSeq + 1, salt1, salt2).sum);
    hide Stamp;
  }

  lemma {:induction false} StampsDiffer(f: Frame, s: Sum, t: Sum)
    requires s != t
    ensures Stamp(f.pageNo, f.dbSizeAfter, f.data, s) != Stamp(f.pageNo, f.dbSizeAfter, f.data, t)
  {
    if Stamp(f.pageNo, f.dbSizeAfter, f.data, s) == Stamp(f.pageNo, f.dbSizeAfter, f.data, t) {
      ChecksumInjective([f.pageNo, f.dbSizeAfter] + f.data, s, t);
      assert false;
    }
  }

  lemma {:induction false} HeaderSumsDiffer(checkpointSeq: Word, salt1: Word, salt2: Word)
    requires checkpointSeq + 1 < WORD_LIMIT
    ensures MakeHeader(checkpointSeq, salt1, salt2).sum != MakeHeader(checkpointSeq + 1, salt1, salt2).sum
  {
    NumberDamaged(MakeHeader(checkpointSeq, salt1, salt2), checkpointSeq + 1);
  }

  // ---- Rollback ----

  /** Leftovers without a commit marker change no recovery. */
  lemma {:induction false} UnmarkedHarmless(w: WALWriter, db: Pages, image: seq<Slot>)
    requires w.Sound() && Survives(w.slots, image, w.committedNextFrame)
    requires forall i :: w.committedNextFrame <= i < |image| ==> !IsCommit(image[i])
    ensures Recovered(db, Sidecar(w.header, image)) == w.View(db)
  {
    CrashKeepsCommits(w, db, image);
  }

  /** The first j slots are as written, and the chain breaks there: the file ends, or
      what follows is torn, foreign or missing. */
  ghost predicate IntactTo(w: WALWriter, image: seq<Slot>, j: nat)
    reads w
    requires w.Sound()
  {
    && w.committedNextFrame <= j <= w.nextFrame && Survives(w.slots, image, j)
    && (j < |image| ==> !ChainedAt(w.header, image, j))
  }

  /** A transaction of `items` was written after the committed frames but its sync failed,
      so that it is to be rolled back.  Whatever part of it a crash leaves intact, opening
      the file gives the database without it, for every main file, if and only if the part
      is not the whole or the items are what the log holds for their pages already. */
  lemma {:induction false} RollbackHarmlessExactly(w: WALWriter, items: seq<Item>, image: seq<Slot>, j: nat)
    requires w.Sound() && items != [] && w.Appended(items, w.committedNextFrame) && IntactTo(w, image, j)
    ensures (forall db :: Recovered(db, Sidecar(w.header, image)) == w.View(db)) <==>
            j < w.nextFrame || Written(w.View(map[]), items) == w.View(map[])
  {
    forall db
      ensures Recovered(db, Sidecar(w.header, image)) ==
              if j < w.nextFrame then w.View(db) else Written(w.View(db), items)
    {
      PartReplayed(w, db, items, image, j);
    }
    forall db
      ensures w.View(db) == db + w.View(map[])
      ensures Written(w.View(db), items) == db + Written(w.View(map[]), items)
    {
      ReplayMerge(db, w.slots[..w.committedNextFrame]);
      WrittenOver(db, w.View(map[]), items);
    }
  }

  lemma {:induction false} WrittenOver(db: Pages, pages: Pages, items: seq<Item>)
    ensures Written(db + pages, items) == db + Written(pages, items)
  {
    if items != [] {
      WrittenOver(db, pages, items[..|items| - 1]);
    }
  }

  /** The whole transaction is replayed, a part of it not at all. */
  lemma {:induction false} PartReplayed(w: WALWriter, db: Pages, items: seq<Item>, image: seq<Slot>, j: nat)
    requires w.Sound() && items != [] && w.Appended(items, w.committedNextFrame) && IntactTo(w, image, j)
    ensures Recovered(db, Sidecar(w.header, image)) ==
            if j < w.nextFrame then w.View(db) else Written(w.View(db), items)
  {
    var n := w.committedNextFrame;
    ShorterChain(w.header, w.slots, w.nextFrame, j);
    ChainSurvives(w.header, w.slots, image, j);
    ChainEndFrom(w.header, image, j);
    SurvivesAt(w.slots, image, j);
    LastMarker(w.slots, image, n, j, w.nextFrame);
    SurvivesShorter(w.slots, image, j, n);
    SameReplay(w.slots, image, n);
    SameReplay(w.slots, image, j);
    CarriesReplay(w.slots, n, items);
  }

  lemma {:induction false} LastMarker(slots: seq<Slot>, image: seq<Slot>, n: nat, j: nat, end: nat)
    requires n <= j <= end <= |slots| && j <= |image| && forall i :: 0 <= i < j ==> image[i] == slots[i]
    requires n > 0 ==> IsCommit(slots[n - 1])
    requires forall i :: n <= i < end ==> (IsCommit(slots[i]) <==> i == end - 1)
    ensures CommitEnd(image, j) == if j < end then n else j
  {
    assert n > 0 ==> image[n - 1] == slots[n - 1];
    if n < j == end {
      assert image[end - 1] == slots[end - 1];
    }
  }

  /** A transaction whose sync failed and that was rolled back is no part of the database,
      and yet a crash that leaves the file as written brings it back. */
  method RollbackUndone(w: WALWriter, items: seq<Item>, dbSizeAfter: Word, db: Pages) returns (recovered: Pages)
    requires w.Sound() && w.Clean() && |w.slots| == w.nextFrame && items != [] && dbSizeAfter > 0
    modifies w
    ensures w.Sound() && w.Clean() && w.View(db) == old(w.View(db))
    ensures recovered == Written(old(w.View(db)), items)
  {
    var ok := w.CommitTransaction(items, dbSizeAfter, false);
    PartReplayed(w, db, items, w.slots, w.nextFrame);
    w.Rollback();
    var side;
    recovered, side := RecoverWalOnOpen(db, Sidecar(w.header, w.slots), true);
  }
}
