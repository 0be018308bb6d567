/** The running checksum of the write-ahead log (src/iai_mcp/lillibrain/wal.py). */
module WalChecksum {

  const WORD_LIMIT := 0x1_0000_0000

  /** An unsigned 32-bit integer. */
  type Word = w: int | 0 <= w < WORD_LIMIT

  datatype Sum = Sum(s0: Word, s1: Word)

  /** One round of the loop: two words of the input. */
  function Mix(w0: Word, w1: Word, s: Sum): Sum {
    var s0 := (s.s0 + w0 + s.s1) % WORD_LIMIT;
    Sum(s0, (s.s1 + w1 + s0) % WORD_LIMIT)
  }

  /** _wal_checksum, of an even number of words. */
  function Checksum(ws: seq<Word>, s: Sum): Sum
    requires |ws| % 2 == 0
  {
    if ws == [] then s else Mix(ws[|ws| - 2], ws[|ws| - 1], Checksum(ws[..|ws| - 2], s))
  }

  method WalChecksum(ws: seq<Word>, s: Sum) returns (r: Sum)
    requires |ws| % 2 == 0
    ensures r == Checksum(ws, s)
  {
    var s0: Word, s1: Word := s.s0, s.s1;
    var i := 0;
    while i < |ws|
      invariant 0 <= i <= |ws| && i % 2 == 0
      invariant Sum(s0, s1) == Checksum(ws[..i], s)
    {
      assert ws[..i + 2][..i] == ws[..i];
      s0 := (s0 + ws[i] + s1) % WORD_LIMIT;
      s1 := (s1 + ws[i + 1] + s0) % WORD_LIMIT;
      i := i + 2;
    }
    assert ws[..|ws|] == ws;
    r := Sum(s0, s1);
  }

  /** Reading on from where one part ends. */
  lemma {:induction false} ChecksumAppend(a: seq<Word>, b: seq<Word>, s: Sum)
    requires |a| % 2 == 0 && |b| % 2 == 0
    ensures Checksum(a + b, s) == Checksum(b, Checksum(a, s))
  {
    if b == [] {
      assert a + b == a;
    } else {
      ChecksumAppend(a, b[..|b| - 2], s);
      assert (a + b)[..|a + b| - 2] == a + b[..|b| - 2];
    }
  }

  // ---- What it detects ----

  lemma {:induction false} ModShift(x: Word, y: Word, c: int)
    requires (x + c) % WORD_LIMIT == (y + c) % WORD_LIMIT
    ensures x == y
  {
    var k := (x + c) / WORD_LIMIT - (y + c) / WORD_LIMIT;
    assert x - y == k * WORD_LIMIT;
    assert k == 0;
  }

  /** A round loses nothing of the sum before it. */
  lemma {:induction false} MixInjective(w0: Word, w1: Word, s: Sum, t: Sum)
    requires Mix(w0, w1, s) == Mix(w0, w1, t)
    ensures s == t
  {
    var s0 := Mix(w0, w1, s).s0;
    ModShift(s.s1, t.s1, w1 + s0);
    ModShift(s.s0, t.s0, w0 + s.s1);
  }

  /** Once two running sums differ, the same input keeps them apart: a broken chain never heals. */
  lemma {:induction false} ChecksumInjective(ws: seq<Word>, s: Sum, t: Sum)
    requires |ws| % 2 == 0 && Checksum(ws, s) == Checksum(ws, t)
    ensures s == t
  {
    if ws != [] {
      var n := |ws| - 2;
      MixInjective(ws[n], ws[n + 1], Checksum(ws[..n], s), Checksum(ws[..n], t));
      ChecksumInjective(ws[..n], s, t);
    }
  }

  /** Different words in one round give different sums. */
  lemma {:induction false} MixDetects(v0: Word, v1: Word, w0: Word, w1: Word, s: Sum)
    requires Mix(v0, v1, s) == Mix(w0, w1, s)
    ensures v0 == w0 && v1 == w1
  {
    var s0 := Mix(v0, v1, s).s0;
    ModShift(v0, w0, s.s0 + s.s1);
    ModShift(v1, w1, s.s1 + s0);
  }

  /** Damage confined to one round's two words is always detected. */
  lemma {:induction false} DamageDetected(
    before: seq<Word>, v0: Word, v1: Word, w0: Word, w1: Word, after: seq<Word>, s: Sum)
    requires |before| % 2 == 0 && |after| % 2 == 0
    requires v0 != w0 || v1 != w1
    ensures Checksum(before + [v0, v1] + after, s) != Checksum(before + [w0, w1] + after, s)
  {
    var t := Checksum(before, s);
    OneRound(before, v0, v1, after, s);
    OneRound(before, w0, w1, after, s);
    if Checksum(after, Mix(v0, v1, t)) == Checksum(after, Mix(w0, w1, t)) {
      ChecksumInjective(after, Mix(v0, v1, t), Mix(w0, w1, t));
      MixDetects(v0, v1, w0, w1, t);
      assert false;
    }
  }

  lemma {:induction false} OneRound(before: seq<Word>, w0: Word, w1: Word, after: seq<Word>, s: Sum)
    requires |before| % 2 == 0 && |after| % 2 == 0
    ensures Checksum(before + [w0, w1] + after, s) == Checksum(after, Mix(w0, w1, Checksum(before, s)))
  {
    ChecksumAppend(before + [w0, w1], after, s);
    assert (before + [w0, w1])[..|before|] == before;
  }

  // ---- Word by word ----

  /** The sequence that starts with the two halves of the sum and goes on with each word
      of the input added to the two terms before it. */
  function Term(ws: seq<Word>, s: Sum, i: int): Word
    requires -2 <= i < |ws|
    decreases i + 2
  {
    if i == -2 then s.s0 else if i == -1 then s.s1
    else (Term(ws, s, i - 2) + Term(ws, s, i - 1) + ws[i]) % WORD_LIMIT
  }

  lemma {:induction false} TermPrefix(ws: seq<Word>, n: nat, s: Sum, i: int)
    requires n <= |ws| && -2 <= i < n
    ensures Term(ws[..n], s, i) == Term(ws, s, i)
    decreases i + 2
  {
    if i >= 0 {
      TermPrefix(ws, n, s, i - 2);
      TermPrefix(ws, n, s, i - 1);
    }
  }

  /** A round goes on from two terms to the next two. */
  lemma {:induction false} LastRound(ws: seq<Word>, s: Sum)
    requires |ws| >= 2
    ensures var n := |ws| - 2;
            Sum(Term(ws, s, n), Term(ws, s, n + 1)) ==
            Mix(ws[n], ws[n + 1], Sum(Term(ws, s, n - 2), Term(ws, s, n - 1)))
  {
  }

  /** The checksum is the last two terms of that sequence. */
  lemma {:induction false} ChecksumIsTwoSum(ws: seq<Word>, s: Sum)
    requires |ws| % 2 == 0
    ensures Checksum(ws, s) == Sum(Term(ws, s, |ws| - 2), Term(ws, s, |ws| - 1))
  {
    if ws != [] {
      var n := |ws| - 2;
      ChecksumIsTwoSum(ws[..n], s);
      TermPrefix(ws, n, s, n - 2);
      TermPrefix(ws, n, s, n - 1);
      LastRound(ws, s);
      hide Term;
      hide Mix;
    }
  }
}
