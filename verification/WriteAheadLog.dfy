/** The writer of the write-ahead log (WALWriter of src/iai_mcp/lillibrain/wal.py). */
module WriteAheadLog {
  import opened Options
  import opened WalChecksum
  import opened WalRecovery

  /** A page to be written, by number. */
  type Item = (Word, Page)

  function MakeFrame(h: Header, item: Item, dbSizeAfter: Word, before: Sum): Frame
    requires h.Header?
  {
    Frame(item.0, dbSizeAfter, h.salt1, h.salt2, Stamp(item.0, dbSizeAfter, item.1, before), item.1)
  }

  function MakeHeader(checkpointSeq: Word, salt1: Word, salt2: Word): (h: Header)
    ensures GoodHeader(h) && h.version == FORMAT_VERSION
    ensures h.checkpointSeq == checkpointSeq && h.salt1 == salt1 && h.salt2 == salt2
  {
    var bare := Header(MAGIC, FORMAT_VERSION, PAGE_SIZE, checkpointSeq, salt1, salt2, Sum(0, 0));
    bare.(sum := HeaderSum(bare))
  }

  /** The pages after the items are written over them in order. */
  function Written(db: Pages, items: seq<Item>): Pages {
    if items == [] then db
    else
      var item := items[|items| - 1];
      Written(db, items[..|items| - 1])[item.0 := item.1]
  }

  /** The newest of the first n frames, by page. */
  function Newest(slots: seq<Slot>, n: nat): map<Word, nat>
    requires n <= |slots|
  {
    if n == 0 then map[]
    else
      match slots[n - 1]
      case Short => Newest(slots, n - 1)
      case Whole(f) => Newest(slots, n - 1)[f.pageNo := n - 1]
  }

  /** The newest frame of a page holds what replaying would leave there. */
  lemma {:induction false} NewestIsReplay(db: Pages, slots: seq<Slot>, n: nat, p: Word)
    requires n <= |slots|
    ensures p in Replay(db, slots[..n]) <==> p in Newest(slots, n) || p in db
    ensures p in Newest(slots, n) ==>
              && Newest(slots, n)[p] < n && slots[Newest(slots, n)[p]].Whole?
              && Replay(db, slots[..n])[p] == slots[Newest(slots, n)[p]].frame.data
    ensures p in db && p !in Newest(slots, n) ==> Replay(db, slots[..n])[p] == db[p]
  {
    if n > 0 {
      NewestIsReplay(db, slots, n - 1, p);
      assert slots[..n][..n - 1] == slots[..n - 1];
    }
  }

  lemma {:induction false} NewestSurvives(slots: seq<Slot>, image: seq<Slot>, n: nat)
    requires Survives(slots, image, n)
    ensures Newest(image, n) == Newest(slots, n)
  {
    if n > 0 {
      assert image[..n][..n - 1] == image[..n - 1] && slots[..n][..n - 1] == slots[..n - 1];
      NewestSurvives(slots, image, n - 1);
      assert image[..n][n - 1] == slots[..n][n - 1];
    }
  }

  /** One more frame at position n, over whatever the file holds there and after. */
  function Placed(slots: seq<Slot>, n: nat, f: Frame): (r: seq<Slot>)
    requires n <= |slots|
    ensures |r| == (if n < |slots| then |slots| else n + 1) && r[n] == Whole(f) && Survives(slots, r, n)
    ensures forall i :: n < i < |slots| ==> r[i] == slots[i]
  {
    slots[..n] + [Whole(f)] + if n < |slots| then slots[n + 1..] else []
  }

  lemma {:induction false} ChainGrows(h: Header, slots: seq<Slot>, n: nat, item: Item, dbSizeAfter: Word)
    requires Chain(h, slots, n) && (n > 0 ==> slots[n - 1].Whole?)
    ensures var r := Placed(slots, n, MakeFrame(h, item, dbSizeAfter, Running(h, slots, n)));
            Chain(h, r, n + 1)
  {
    var r := Placed(slots, n, MakeFrame(h, item, dbSizeAfter, Running(h, slots, n)));
    ChainSurvives(h, slots, r, n);
    assert n > 0 ==> r[..n][n - 1] == slots[..n][n - 1];
    assert ChainedAt(h, r, n);
  }

  class WALWriter {
    var header: Header
    var slots: seq<Slot>          // the sidecar, frame by frame
    var running: Sum
    var nextFrame: nat            // the write head, in frames
    var walIndex: map<Word, nat>
    var committedFrameCount: nat
    var committedSum: Sum
    var committedNextFrame: nat

    /** The file up to the write head is a chain, the committed part of it ends in a
        commit marker, and the index points into the committed part. */
    ghost predicate Sound()
      reads this
    {
      && header.Header?
      && header == MakeHeader(header.checkpointSeq, header.salt1, header.salt2)
      && committedFrameCount <= committedNextFrame <= nextFrame <= |slots|
      && Chain(header, slots, nextFrame)
      && AtEnd(header, slots, nextFrame, running)
      && AtEnd(header, slots, committedNextFrame, committedSum)
      && (committedNextFrame > 0 ==> IsCommit(slots[committedNextFrame - 1]))
      && (forall p :: p in walIndex ==> walIndex[p] < committedFrameCount)
    }

    /** Besides, the committed frames are counted right, and the index names the newest of each page. */
    ghost predicate Valid()
      reads this
    {
      && Sound()
      && committedFrameCount == committedNextFrame
      && walIndex == Newest(slots, committedNextFrame)
    }

    /** Nothing is written after the last commit. */
    predicate Clean()
      reads this
    {
      nextFrame == committedNextFrame && running == committedSum
    }

    /** The database: the committed frames over the main file. */
    ghost function View(db: Pages): Pages
      reads this
      requires Sound()
    {
      Replay(db, slots[..committedNextFrame])
    }

    /** What a reader gets for a page. */
    ghost function Seen(db: Pages, p: Word): Option<Page>
      reads this
      requires Sound()
    {
      Reads(slots, walIndex, db, p)
    }

    constructor (salt1: Word, salt2: Word)
      ensures Valid() && Clean() && slots == [] && header == MakeHeader(0, salt1, salt2)
      ensures forall db :: View(db) == db
    {
      header := MakeHeader(0, salt1, salt2);
      slots, walIndex := [], map[];
      nextFrame, committedFrameCount, committedNextFrame := 0, 0, 0;
      running, committedSum := MakeHeader(0, salt1, salt2).sum, MakeHeader(0, salt1, salt2).sum;
    }

    method AppendFrame(item: Item, dbSizeAfter: Word)
      requires Sound()
      modifies `slots, `running, `nextFrame
      ensures Sound()
      ensures slots == Placed(old(slots), old(nextFrame), MakeFrame(header, item, dbSizeAfter, old(running)))
      ensures nextFrame == old(nextFrame) + 1
    {
      ghost var was := slots;
      var f := MakeFrame(header, item, dbSizeAfter, running);
      ChainGrows(header, slots, nextFrame, item, dbSizeAfter);
      slots := Placed(slots, nextFrame, f);
      running := f.sum;
      nextFrame := nextFrame + 1;
      SurvivesShorter(was, slots, nextFrame - 1, committedNextFrame);
      EndSurvives(header, was, slots, committedNextFrame, committedSum);
    }

    /** Appends the items, the last with the commit marker, and syncs once; `synced` is
        whether that sync succeeds.  If it does not, the source raises.  The index takes
        the frames to follow the committed ones, which they do only if the writer was clean. */
    method CommitTransaction(items: seq<Item>, dbSizeAfter: Word, synced: bool) returns (ok: bool)
      requires Sound() && dbSizeAfter > 0
      modifies this
      ensures Sound() && header == old(header) && (ok <==> synced || items == [])
      ensures items == [] ==> unchanged(this)
      ensures Survives(old(slots), slots, old(nextFrame))
      ensures |slots| == if nextFrame < old(|slots|) then old(|slots|) else nextFrame
      ensures items != [] ==> Appended(items, old(nextFrame))
      ensures ok && items != [] ==>
                && Clean() && committedFrameCount == old(committedFrameCount) + |items|
                && walIndex == IndexWith(old(walIndex), items, old(committedFrameCount))
                && forall db :: View(db) == Written(Replay(db, old(slots[..nextFrame])), items)
      ensures !ok ==>
                && committedNextFrame == old(committedNextFrame) && committedFrameCount == old(committedFrameCount)
                && walIndex == old(walIndex) && forall db :: View(db) == old(View(db))
      ensures old(Valid()) ==> (Valid() <==> !ok || items == [] || old(nextFrame == committedNextFrame))
    {
      if items == [] {
        return true;
      }
      hide Replay;
      hide Written;
      hide IndexWith;
      ghost var was, from, committed := slots, nextFrame, committedNextFrame;
      var start := committedFrameCount;
      AppendFrames(items, dbSizeAfter);
      SurvivesShorter(was, slots, from, committed);
      SameReplay(was, slots, committed);
      NewestSurvives(was, slots, committed);
      if !synced {
        return false;
      }
      SameReplay(was, slots, from);
      CarriesReplay(slots, from, items);
      if from == committed {
        IndexIsNewest(slots, committed, items);
      }
      IndexBelow(walIndex, items, start);
      IndexItems(items, start);
      committedFrameCount := committedFrameCount + |items|;
      committedSum := running;
      committedNextFrame := nextFrame;
      return true;
    }

    /** The file holds one transaction of these items from `from` up to the write head, with its marker last. */
    ghost predicate Appended(items: seq<Item>, from: nat)
      reads this
    {
      && 0 < nextFrame == from + |items| <= |slots|
      && Carries(slots, from, items)
      && forall i :: from <= i < nextFrame ==> (IsCommit(slots[i]) <==> i == nextFrame - 1)
    }

    /** The append loop. */
    method AppendFrames(items: seq<Item>, dbSizeAfter: Word)
      requires Sound() && dbSizeAfter > 0 && items != []
      modifies `slots, `running, `nextFrame
      ensures Sound() && Appended(items, old(nextFrame))
      ensures |slots| == if nextFrame < old(|slots|) then old(|slots|) else nextFrame
      ensures Survives(old(slots), slots, old(nextFrame))
    {
      ghost var start := nextFrame;
      for i := 0 to |items|
        invariant Sound() && nextFrame == start + i
        invariant Survives(old(slots), slots, start) && Carries(slots, start, items[..i])
        invariant forall k :: start <= k < nextFrame ==> (IsCommit(slots[k]) <==> k == start + |items| - 1)
        invariant |slots| == if nextFrame < old(|slots|) then old(|slots|) else nextFrame
      {
        ghost var was := slots;
        AppendFrame(items[i], if i == |items| - 1 then dbSizeAfter else 0);
        SurvivesShorter(was, slots, start + i, start);
        SurvivesAt(was, slots, start + i);
        CarriesMore(was, slots, start, items, i);
      }
      assert items[..|items|] == items;
    }

    /** The index loop. */
    method IndexItems(items: seq<Item>, start: nat)
      modifies `walIndex
      ensures walIndex == IndexWith(old(walIndex), items, start)
    {
      for i := 0 to |items|
        invariant walIndex == IndexWith(old(walIndex), items[..i], start)
      {
        assert items[..i + 1][..i] == items[..i];
        walIndex := walIndex[items[i].0 := start + i];
      }
      assert items[..|items|] == items;
    }

    /** Rewinds to the last commit; the file keeps what was written after it. */
    method Rollback()
      requires Sound()
      modifies `running, `nextFrame
      ensures Sound() && Clean() && (old(Valid()) ==> Valid())
      ensures forall db :: View(db) == old(View(db))
    {
      running := committedSum;
      nextFrame := committedNextFrame;
    }

    /** The page that the index names, or the main file's; None past its end. */
    method ReadPage(p: Word, db: Pages) returns (r: Option<Page>)
      requires Sound()
      ensures r == Seen(db, p)
      ensures Valid() ==> r == At(View(db), p)
    {
      NewestIsReplay(db, slots, committedNextFrame, p);
      if p in walIndex {
        assert ChainedAt(header, slots, walIndex[p]);
        return Some(slots[walIndex[p]].frame.data);
      }
      return if p in db then Some(db[p]) else None;
    }

    /** Syncs the log, copies the frame that the index names for each page into the main
        file, syncs that, and starts a new log.  `logSynced` and `fileSynced` are whether
        the syncs succeed; where one does not, the source raises. */
    method Checkpoint(db: Pages, salt2: Word, logSynced: bool, fileSynced: bool) returns (db': Pages, ok: bool)
      requires Sound() && header.checkpointSeq + 1 < WORD_LIMIT
      modifies this
      ensures Sound() && (old(Valid()) ==> Valid())
      ensures ok <==> old(walIndex) == map[] || (logSynced && fileSynced)
      ensures old(walIndex) == map[] || !ok ==> unchanged(this)
      ensures old(walIndex) == map[] || !logSynced ==> db' == db
      ensures ok || logSynced ==> forall p :: At(db', p) == old(Seen(db, p))
      ensures old(walIndex) != map[] && ok ==>
                && Valid() && Clean() && slots == []
                && header == MakeHeader(old(header.checkpointSeq) + 1, old(header.salt1), salt2)
      ensures old(Valid()) && (ok || logSynced) ==> db' == old(View(db))
      ensures old(Valid()) && ok ==> forall other :: View(other) == other
    {
      if walIndex == map[] {
        if Valid() {
          NothingIndexed(slots, committedNextFrame);
        }
        return db, true;
      }
      if !logSynced {
        return db, false;
      }
      db' := CopyPages(db);
      if Valid() {
        ReadsAreView(db, db');
      }
      if !fileSynced {
        return db', false;
      }
      StartOver(salt2);
      return db', true;
    }

    /** Cuts the log off and writes a new header. */
    method StartOver(salt2: Word)
      requires header.Header? && header.checkpointSeq + 1 < WORD_LIMIT
      modifies this
      ensures Valid() && Clean() && slots == [] && walIndex == map[]
      ensures header == MakeHeader(old(header.checkpointSeq) + 1, old(header.salt1), salt2)
    {
      header := MakeHeader(header.checkpointSeq + 1, header.salt1, salt2);
      slots, walIndex := [], map[];
      running, committedSum := header.sum, header.sum;
      nextFrame, committedNextFrame, committedFrameCount := 0, 0, 0;
    }

    lemma {:induction false} ReadsAreView(db: Pages, db': Pages)
      requires Valid() && forall p :: At(db', p) == Seen(db, p)
      ensures db' == View(db)
    {
      forall p ensures At(db', p) == At(View(db), p) {
        NewestIsReplay(db, slots, committedNextFrame, p);
      }
      SamePages(db', View(db));
    }

    /** One pwrite per indexed page. */
    method CopyPages(db: Pages) returns (db': Pages)
      requires Sound()
      ensures forall p :: At(db', p) == Seen(db, p)
    {
      db' := db;
      var rest := walIndex.Keys;
      while rest != {}
        invariant rest <= walIndex.Keys
        invariant forall p :: At(db', p) == if p in rest then At(db, p) else Seen(db, p)
      {
        var p :| p in rest;
        assert ChainedAt(header, slots, walIndex[p]);
        db' := db'[p := slots[walIndex[p]].frame.data];
        rest := rest - {p};
      }
    }
  }

  // ---- Reading ----

  function At(db: Pages, p: Word): Option<Page> {
    if p in db then Some(db[p]) else None
  }

  lemma {:induction false} SamePages(a: Pages, b: Pages)
    requires forall p :: At(a, p) == At(b, p)
    ensures a == b
  {
    forall p: Word ensures p in a <==> p in b
                   ensures p in a ==> a[p] == b[p] {
      assert At(a, p) == At(b, p);
    }
  }

  /** What reading page p through an index gives. */
  function Reads(slots: seq<Slot>, index: map<Word, nat>, db: Pages, p: Word): Option<Page> {
    if p in index then
      if index[p] < |slots| && slots[index[p]].Whole? then Some(slots[index[p]].frame.data) else None
    else At(db, p)
  }

  /** The index with the items taken to stand from `start` on. */
  function IndexWith(index: map<Word, nat>, items: seq<Item>, start: nat): map<Word, nat> {
    if items == [] then index
    else
      var n := |items| - 1;
      IndexWith(index, items[..n], start)[items[n].0 := start + n]
  }

  lemma {:induction false} IndexBelow(index: map<Word, nat>, items: seq<Item>, start: nat)
    requires forall p :: p in index ==> index[p] < start
    ensures forall p :: p in IndexWith(index, items, start) ==> IndexWith(index, items, start)[p] < start + |items|
  {
    if items != [] {
      IndexBelow(index, items[..|items| - 1], start);
    }
  }

  lemma {:induction false} IndexIsNewest(slots: seq<Slot>, start: nat, items: seq<Item>)
    requires Carries(slots, start, items)
    ensures IndexWith(Newest(slots, start), items, start) == Newest(slots, start + |items|)
  {
    if items != [] {
      var n := |items| - 1;
      assert Carries(slots, start, items[..n]);
      IndexIsNewest(slots, start, items[..n]);
      assert CarriesItem(slots[start + n], items[n]);
    }
  }

  lemma {:induction false} NothingIndexed(slots: seq<Slot>, n: nat)
    requires n <= |slots| && Newest(slots, n) == map[]
    ensures forall db :: Replay(db, slots[..n]) == db
  {
    forall db ensures Replay(db, slots[..n]) == db {
      forall p: Word ensures p in Replay(db, slots[..n]) <==> p in db
                     ensures p in db ==> Replay(db, slots[..n])[p] == db[p] {
        NewestIsReplay(db, slots, n, p);
      }
    }
  }

  predicate AtEnd(h: Header, slots: seq<Slot>, n: nat, sum: Sum) {
    h.Header? && n <= |slots| && (n > 0 ==> slots[n - 1].Whole?) && Running(h, slots, n) == sum
  }

  lemma {:induction false} SurvivesShorter(slots: seq<Slot>, image: seq<Slot>, n: nat, m: nat)
    requires Survives(slots, image, n) && m <= n
    ensures Survives(slots, image, m)
  {
    assert slots[..m] == slots[..n][..m] && image[..m] == image[..n][..m];
  }

  lemma {:induction false} EndSurvives(h: Header, slots: seq<Slot>, image: seq<Slot>, n: nat, sum: Sum)
    requires Survives(slots, image, n) && AtEnd(h, slots, n, sum)
    ensures AtEnd(h, image, n, sum) && (n > 0 ==> image[n - 1] == slots[n - 1])
  {
    assert n > 0 ==> image[..n][n - 1] == slots[..n][n - 1];
  }

  lemma {:induction false} SurvivesAt(slots: seq<Slot>, image: seq<Slot>, n: nat)
    requires Survives(slots, image, n)
    ensures forall i :: 0 <= i < n ==> image[i] == slots[i]
  {
    forall i | 0 <= i < n
      ensures image[i] == slots[i]
    {
      assert image[..n][i] == slots[..n][i];
    }
  }

  /** The slots from `start` on are frames of the items, in order. */
  ghost predicate Carries(slots: seq<Slot>, start: nat, items: seq<Item>) {
    && start + |items| <= |slots|
    && forall i :: 0 <= i < |items| ==> CarriesItem(slots[start + i], items[i])
  }

  predicate CarriesItem(s: Slot, item: Item) {
    s.Whole? && s.frame.pageNo == item.0 && s.frame.data == item.1
  }

  lemma {:induction false} CarriesMore(slots: seq<Slot>, image: seq<Slot>, start: nat, items: seq<Item>, i: nat)
    requires i < |items| && Carries(slots, start, items[..i]) && Survives(slots, image, start + i)
    requires start + i < |image| && CarriesItem(image[start + i], items[i])
    ensures Carries(image, start, items[..i + 1])
  {
    forall j | 0 <= j < i
      ensures CarriesItem(image[start + j], items[j])
    {
      assert CarriesItem(slots[start + j], items[..i][j]);
      assert image[..start + i][start + j] == slots[..start + i][start + j];
    }
  }

  /** Replaying frames is writing their items. */
  lemma {:induction false} CarriesReplay(slots: seq<Slot>, start: nat, items: seq<Item>)
    requires Carries(slots, start, items)
    ensures forall db :: Replay(db, slots[..start + |items|]) == Written(Replay(db, slots[..start]), items)
  {
    if items != [] {
      var n := |items| - 1;
      assert Carries(slots, start, items[..n]);
      CarriesReplay(slots, start, items[..n]);
      assert slots[..start + n + 1][..start + n] == slots[..start + n];
      assert CarriesItem(slots[start + n], items[n]);
    }
  }

  lemma {:induction false} SameReplay(slots: seq<Slot>, image: seq<Slot>, n: nat)
    requires Survives(slots, image, n)
    ensures forall db :: Replay(db, image[..n]) == Replay(db, slots[..n])
  {
  }
}
