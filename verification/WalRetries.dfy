/** What becomes of readers when a commit follows one whose sync failed, without a
    rollback in between (src/iai_mcp/lillibrain/wal.py). */
module WalRetries {
  import opened Options
  import opened WalChecksum
  import opened WalRecovery
  import opened WriteAheadLog

  /** Item i is the last of the items for its page. */
  ghost predicate IsLast(items: seq<Item>, i: int) {
    0 <= i < |items| && forall j :: i < j < |items| ==> items[j].0 != items[i].0
  }

  ghost predicate Mentions(items: seq<Item>, p: Word) {
    exists i :: 0 <= i < |items| && items[i].0 == p
  }

  lemma {:induction false} SomeLast(items: seq<Item>, p: Word) returns (i: nat)
    requires Mentions(items, p)
    ensures IsLast(items, i) && items[i].0 == p
  {
    var n := |items| - 1;
    if items[n].0 == p {
      i := n;
    } else {
      var j :| 0 <= j < |items| && items[j].0 == p;
      assert items[..n][j].0 == p;
      i := SomeLast(items[..n], p);
      forall j | i < j < |items|
        ensures items[j].0 != items[i].0
      {
        assert j < n ==> items[..n][j].0 != items[..n][i].0;
      }
    }
  }

  /** Writing items leaves each page with its last item. */
  lemma {:induction false} WrittenLast(db: Pages, items: seq<Item>, i: nat)
    requires IsLast(items, i)
    ensures At(Written(db, items), items[i].0) == Some(items[i].1)
  {
    var n := |items| - 1;
    if i < n {
      assert items[n].0 != items[i].0;
      assert IsLast(items[..n], i);
      WrittenLast(db, items[..n], i);
    }
  }

  lemma {:induction false} WrittenElsewhere(db: Pages, items: seq<Item>, p: Word)
    requires !Mentions(items, p)
    ensures At(Written(db, items), p) == At(db, p)
  {
    if items != [] {
      var n := |items| - 1;
      assert items[n].0 != p;
      forall j | 0 <= j < n
        ensures items[..n][j].0 != p
      {
        assert items[j].0 != p;
      }
      WrittenElsewhere(db, items[..n], p);
    }
  }

  /** The index takes item i to stand at start + i. */
  lemma {:induction false} IndexedLast(index: map<Word, nat>, items: seq<Item>, start: nat, i: nat)
    requires IsLast(items, i)
    ensures var more := IndexWith(index, items, start);
            items[i].0 in more && more[items[i].0] == start + i
  {
    var n := |items| - 1;
    if i < n {
      assert items[n].0 != items[i].0;
      assert IsLast(items[..n], i);
      IndexedLast(index, items[..n], start, i);
    }
  }

  lemma {:induction false} IndexedElsewhere(index: map<Word, nat>, items: seq<Item>, start: nat, p: Word)
    requires !Mentions(items, p)
    ensures var more := IndexWith(index, items, start);
            (p in more <==> p in index) && (p in index ==> more[p] == index[p])
  {
    if items != [] {
      var n := |items| - 1;
      assert items[n].0 != p;
      forall j | 0 <= j < n
        ensures items[..n][j].0 != p
      {
        assert items[j].0 != p;
      }
      IndexedElsewhere(index, items[..n], start, p);
    }
  }

  // ---- Reads after the retry ----

  /** For each page that is committed now, the frame at which the index looks, counted
      from the first leftover, happens to hold what is committed; and each page that only
      the leftovers hold is indexed already, with what the leftovers hold. */
  ghost predicate Coincides(slots: seq<Slot>, index: map<Word, nat>, left: seq<Item>, items: seq<Item>) {
    && (forall i :: IsLast(items, i) ==> (left + items)[i].1 == items[i].1)
    && (forall i :: IsLast(left, i) && !Mentions(items, left[i].0) ==>
          left[i].0 in index && Reads(slots, index, map[], left[i].0) == Some(left[i].1))
  }

  /** For every main file and page, reading through the index gives what the first m frames make of it. */
  ghost predicate ReadsRight(slots: seq<Slot>, index: map<Word, nat>, m: nat)
    requires m <= |slots|
  {
    forall db, p :: Reads(slots, index, db, p) == At(Replay(db, slots[..m]), p)
  }

  /** n frames are committed and indexed; `left` are the items of failed commits after
      them, `items` those of the commit that now succeeds.  Readers see the database if
      and only if those coincidences hold; they do if nothing was left. */
  lemma {:induction false} RetriedReadsExactly(slots: seq<Slot>, n: nat, left: seq<Item>, items: seq<Item>)
    requires Carries(slots, n, left + items)
    requires forall i :: 0 <= i < n ==> slots[i].Whole?
    ensures ReadsRight(slots, IndexWith(Newest(slots, n), items, n), n + |left + items|) <==>
            Coincides(slots, Newest(slots, n), left, items)
    ensures Coincides(slots, Newest(slots, n), [], items)
  {
    NothingLeft(slots, Newest(slots, n), items);
    hide Newest;
    hide IndexWith;
    hide Replay;
    hide Reads;
    hide PageCoincides;
    hide Coincides;
    hide Carries;
    PagesCoincide(slots, Newest(slots, n), left, items);
    forall db, p
      ensures ReadRight(slots, n, left, items, db, p)
    {
      PageReads(slots, n, left, items, db, p);
    }
    if ReadsRight(slots, IndexWith(Newest(slots, n), items, n), n + |left + items|) {
      forall p
        ensures PageCoincides(slots, Newest(slots, n), left, items, p)
      {
        assert ReadRight(slots, n, left, items, map[], p);
      }
    }
    if Coincides(slots, Newest(slots, n), left, items) {
      forall db, p
        ensures Reads(slots, IndexWith(Newest(slots, n), items, n), db, p) ==
                At(Replay(db, slots[..n + |left + items|]), p)
      {
        assert PageCoincides(slots, Newest(slots, n), left, items, p) && ReadRight(slots, n, left, items, db, p);
      }
    }
  }

  lemma {:induction false} NothingLeft(slots: seq<Slot>, index: map<Word, nat>, items: seq<Item>)
    ensures Coincides(slots, index, [], items)
  {
    assert [] + items == items;
  }

  /** The same, page by page. */
  ghost predicate PageCoincides(slots: seq<Slot>, index: map<Word, nat>, left: seq<Item>, items: seq<Item>, p: Word) {
    && (forall i :: IsLast(items, i) && items[i].0 == p ==> (left + items)[i].1 == items[i].1)
    && (forall i :: IsLast(left, i) && left[i].0 == p && !Mentions(items, p) ==>
          p in index && Reads(slots, index, map[], p) == Some(left[i].1))
  }

  lemma {:induction false} PagesCoincide(slots: seq<Slot>, index: map<Word, nat>, left: seq<Item>, items: seq<Item>)
    ensures Coincides(slots, index, left, items) <==> forall p :: PageCoincides(slots, index, left, items, p)
  {
    if forall p :: PageCoincides(slots, index, left, items, p) {
      forall i | IsLast(items, i)
        ensures (left + items)[i].1 == items[i].1
      {
        assert PageCoincides(slots, index, left, items, items[i].0);
      }
      forall i | IsLast(left, i) && !Mentions(items, left[i].0)
        ensures left[i].0 in index && Reads(slots, index, map[], left[i].0) == Some(left[i].1)
      {
        assert PageCoincides(slots, index, left, items, left[i].0);
      }
    }
  }

  /** A page is read right if it coincides, and, from an empty main file, only then. */
  ghost predicate ReadRight(slots: seq<Slot>, n: nat, left: seq<Item>, items: seq<Item>, db: Pages, p: Word)
    requires n + |left + items| <= |slots|
  {
    var was := Newest(slots, n);
    var right := Reads(slots, IndexWith(was, items, n), db, p) == At(Replay(db, slots[..n + |left + items|]), p);
    && (PageCoincides(slots, was, left, items, p) ==> right)
    && (db == map[] && right ==> PageCoincides(slots, was, left, items, p))
  }

  lemma {:induction false} PageReads(
    slots: seq<Slot>, n: nat, left: seq<Item>, items: seq<Item>, db: Pages, p: Word)
    requires Carries(slots, n, left + items)
    requires forall i :: 0 <= i < n ==> slots[i].Whole?
    ensures ReadRight(slots, n, left, items, db, p)
  {
    if Mentions(items, p) {
      var i := SomeLast(items, p);
      CommittedPage(slots, n, left, items, db, i);
    } else if Mentions(left, p) {
      var i := SomeLast(left, p);
      LeftoverPage(slots, n, left, items, db, i);
    } else {
      OtherPage(slots, n, left, items, db, p);
    }
  }

  lemma {:induction false} WrittenBoth(db: Pages, left: seq<Item>, items: seq<Item>)
    ensures Written(db, left + items) == Written(Written(db, left), items)
  {
    if items == [] {
      assert left + items == left;
    } else {
      WrittenBoth(db, left, items[..|items| - 1]);
      assert (left + items)[..|left + items| - 1] == left + items[..|items| - 1];
    }
  }

  lemma {:induction false} OneLast(items: seq<Item>, i: nat)
    requires IsLast(items, i)
    ensures forall j :: IsLast(items, j) && items[j].0 == items[i].0 ==> j == i
    ensures Mentions(items, items[i].0)
  {
  }

  lemma {:induction false} CommittedPage(
    slots: seq<Slot>, n: nat, left: seq<Item>, items: seq<Item>, db: Pages, i: nat)
    requires Carries(slots, n, left + items) && IsLast(items, i)
    ensures ReadRight(slots, n, left, items, db, items[i].0)
  {
    OneLast(items, i);
    CommittedReads(slots, n, left, items, db, i);
    hide Newest;
    hide IndexWith;
    hide Replay;
    hide Reads;
    hide IsLast;
    hide Mentions;
  }

  lemma {:induction false} CommittedReads(
    slots: seq<Slot>, n: nat, left: seq<Item>, items: seq<Item>, db: Pages, i: nat)
    requires Carries(slots, n, left + items) && IsLast(items, i)
    ensures Reads(slots, IndexWith(Newest(slots, n), items, n), db, items[i].0) == Some((left + items)[i].1)
    ensures At(Replay(db, slots[..n + |left + items|]), items[i].0) == Some(items[i].1)
  {
    CarriesReplay(slots, n, left + items);
    WrittenBoth(Replay(db, slots[..n]), left, items);
    WrittenLast(Written(Replay(db, slots[..n]), left), items, i);
    IndexedLast(Newest(slots, n), items, n, i);
    assert CarriesItem(slots[n + i], (left + items)[i]);
    hide Newest;
    hide IndexWith;
    hide Written;
    hide Replay;
  }

  lemma {:induction false} LeftoverPage(
    slots: seq<Slot>, n: nat, left: seq<Item>, items: seq<Item>, db: Pages, i: nat)
    requires Carries(slots, n, left + items) && IsLast(left, i) && !Mentions(items, left[i].0)
    ensures ReadRight(slots, n, left, items, db, left[i].0)
  {
    var p := left[i].0;
    OneLast(left, i);
    CarriesReplay(slots, n, left + items);
    WrittenBoth(Replay(db, slots[..n]), left, items);
    WrittenElsewhere(Written(Replay(db, slots[..n]), left), items, p);
    WrittenLast(Replay(db, slots[..n]), left, i);
    IndexedElsewhere(Newest(slots, n), items, n, p);
    NotLast(items, p);
    hide Newest;
    hide IndexWith;
    hide Written;
    hide Replay;
    hide IsLast;
    hide Mentions;
  }

  lemma {:induction false} NotLast(items: seq<Item>, p: Word)
    requires !Mentions(items, p)
    ensures forall i :: IsLast(items, i) ==> items[i].0 != p
  {
  }

  lemma {:induction false} OtherPage(
    slots: seq<Slot>, n: nat, left: seq<Item>, items: seq<Item>, db: Pages, p: Word)
    requires Carries(slots, n, left + items) && !Mentions(items, p) && !Mentions(left, p)
    requires forall i :: 0 <= i < n ==> slots[i].Whole?
    ensures ReadRight(slots, n, left, items, db, p)
  {
    CarriesReplay(slots, n, left + items);
    WrittenBoth(Replay(db, slots[..n]), left, items);
    WrittenElsewhere(Written(Replay(db, slots[..n]), left), items, p);
    WrittenElsewhere(Replay(db, slots[..n]), left, p);
    IndexedElsewhere(Newest(slots, n), items, n, p);
    NewestIsReplay(db, slots, n, p);
    NotLast(items, p);
    NotLast(left, p);
    hide IndexWith;
    hide Written;
    hide IsLast;
    hide Mentions;
  }

  /** A commit that succeeds while `left` lies after the committed frames: from then on
      readers see the database, on every page and over every main file, if and only if
      the items coincide with what was there before the call. */
  method CommitOverLeftovers(w: WALWriter, left: seq<Item>, items: seq<Item>, dbSizeAfter: Word)
    requires w.Valid() && w.nextFrame == w.committedNextFrame + |left| && Carries(w.slots, w.committedNextFrame, left)
    requires items != [] && dbSizeAfter > 0
    modifies w
    ensures w.Sound()
    ensures ReadsRight(w.slots, w.walIndex, w.committedNextFrame) <==> old(Coincides(w.slots, w.walIndex, left, items))
    ensures forall db :: w.View(db) == Written(old(w.View(db)), left + items)
  {
    hide Coincides;
    hide ReadsRight;
    hide Replay;
    hide Newest;
    hide IndexWith;
    ghost var was, n := w.slots, w.committedNextFrame;
    AllWhole(w.header, was, n);
    CarriesReplay(was, n, left);
    var ok := w.CommitTransaction(items, dbSizeAfter, true);
    CarriesBoth(was, w.slots, n, left, items);
    SurvivesShorter(was, w.slots, n + |left|, n);
    NewestSurvives(was, w.slots, n);
    SurvivesAt(was, w.slots, n);
    CoincidesSurvives(was, w.slots, n, left, items);
    RetriedReadsExactly(w.slots, n, left, items);
    forall db ensures w.View(db) == Written(Replay(db, was[..n]), left + items) {
      WrittenBoth(Replay(db, was[..n]), left, items);
    }
  }

  lemma {:induction false} AllWhole(h: Header, slots: seq<Slot>, n: nat)
    requires exists m :: n <= m <= |slots| && Chain(h, slots, m)
    ensures forall i :: 0 <= i < n ==> slots[i].Whole?
  {
    forall i | 0 <= i < n
      ensures slots[i].Whole?
    {
      assert ChainedAt(h, slots, i);
    }
  }

  lemma {:induction false} CarriesBoth(
    slots: seq<Slot>, image: seq<Slot>, n: nat, left: seq<Item>, items: seq<Item>)
    requires Carries(slots, n, left) && Survives(slots, image, n + |left|) && Carries(image, n + |left|, items)
    ensures Carries(image, n, left + items)
  {
    SurvivesAt(slots, image, n + |left|);
    forall i | 0 <= i < |left + items|
      ensures CarriesItem(image[n + i], (left + items)[i])
    {
      if i < |left| {
        assert CarriesItem(slots[n + i], left[i]);
      } else {
        assert CarriesItem(image[n + |left| + (i - |left|)], items[i - |left|]);
      }
    }
  }

  lemma {:induction false} CoincidesSurvives(
    slots: seq<Slot>, image: seq<Slot>, n: nat, left: seq<Item>, items: seq<Item>)
    requires Survives(slots, image, n)
    ensures Coincides(slots, Newest(slots, n), left, items) <==> Coincides(image, Newest(slots, n), left, items)
  {
    SurvivesAt(slots, image, n);
    forall p
      ensures Reads(image, Newest(slots, n), map[], p) == Reads(slots, Newest(slots, n), map[], p)
    {
      NewestIsReplay(map[], slots, n, p);
    }
  }

  // ---- A commit retried, and one more ----

  /** Page 1 is committed in vain and then again, and page 2 after it.  A reader of page
      2 gets page 1's content, and a checkpoint copies it there; opening the log instead
      would have given page 2 as committed. */
  method RetryMisleads(salt1: Word, salt2: Word, a: Page, b: Page, db: Pages)
    returns (seen: Option<Page>, recovered: Pages, copied: Pages)
    ensures seen == Some(a) && At(copied, 2) == Some(a) && At(recovered, 2) == Some(b)
  {
    hide Replay;
    var w := RetriedThenMore(salt1, salt2, a, b);
    seen := w.ReadPage(2, db);
    AllReplayed(db, w.header, w.slots);
    var side, ok;
    recovered, side := RecoverWalOnOpen(db, Sidecar(w.header, w.slots), true);
    copied, ok := w.Checkpoint(db, salt2, true, true);
  }

  method RetriedThenMore(salt1: Word, salt2: Word, a: Page, b: Page) returns (w: WALWriter)
    ensures fresh(w) && w.Sound() && w.header.checkpointSeq == 0 && 0 < w.committedNextFrame == |w.slots|
    ensures forall db :: w.Seen(db, 2) == Some(a) && At(w.View(db), 2) == Some(b)
  {
    hide Replay;
    w := new WALWriter(salt1, salt2);
    var ok := w.CommitTransaction([(1, a)], 2, false);
    ok := w.CommitTransaction([(1, a)], 2, true);
    ghost var was := w.slots;
    assert CarriesItem(was[1], [(1, a)][0]);
    ok := w.CommitTransaction([(2, b)], 2, true);
    SurvivesAt(was, w.slots, 2);
    OneItem(map[], (1, a), 0);
    OneItem(map[1 := 0], (2, b), 1);
  }

  lemma {:induction false} OneItem(index: map<Word, nat>, item: Item, start: nat)
    ensures IndexWith(index, [item], start) == index[item.0 := start]
    ensures forall db :: Written(db, [item]) == db[item.0 := item.1]
  {
    assert [item][..0] == [];
  }

  /** A file that is one chain up to its last slot, a commit marker, is replayed whole. */
  lemma {:induction false} AllReplayed(db: Pages, h: Header, slots: seq<Slot>)
    requires GoodHeader(h) && slots != [] && Chain(h, slots, |slots|) && IsCommit(slots[|slots| - 1])
    ensures Recovered(db, Sidecar(h, slots)) == Replay(db, slots[..|slots|])
  {
    ChainEndFrom(h, slots, |slots|);
  }
}
