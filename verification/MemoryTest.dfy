/**
 The memory test of software/memcheck/memcheck.c: a linear feedback shift register
 fills memory and, started again from the same state, checks it.
 */
module MemoryTest {

  // ---------------------------------------------------------------------------
  // The shift register
  // ---------------------------------------------------------------------------

  /**
   next_LFSR. The source keeps the register in a 32-bit variable and masks it to 24 bits
   after every step; here the type does that.
   */
  function Next(v: bv24): bv24 {
    if v & 0x80_0000 != 0 then (v << 1) ^ 0x80_042b else v << 1
  }

  /** The state before. */
  function Previous(v: bv24): bv24 {
    if v & 1 != 0 then ((v ^ 0x80_042b) >> 1) | 0x80_0000 else v >> 1
  }

  lemma PreviousOfShift(v: bv24)
    ensures v & 0x80_0000 != 0 ==> Previous((v << 1) ^ 0x80_042b) == v
    ensures v & 0x80_0000 == 0 ==> Previous(v << 1) == v
  {
  }

  /** Stepping is a bijection: Previous undoes it, and it undoes Previous. */
  lemma PreviousUndoesNext(v: bv24)
    ensures Previous(Next(v)) == v
  {
    hide Previous;
    PreviousOfShift(v);
  }

  lemma NextUndoesPrevious(v: bv24)
    ensures Next(Previous(v)) == v
  {
  }

  lemma ZeroStays(v: bv24)
    ensures Next(v) == 0 <==> v == 0
  {
  }

  function Iterate(v: bv24, n: nat): bv24 { if n == 0 then v else Next(Iterate(v, n - 1)) }

  lemma {:induction false} NeverZero(v: bv24, n: nat)
    requires v != 0
    ensures Iterate(v, n) != 0
  {
    hide Next;
    if n > 0 {
      NeverZero(v, n - 1);
      ZeroStays(Iterate(v, n - 1));
    }
  }

  /** Different seeds never meet. */
  lemma {:induction false} NeverMeet(v: bv24, w: bv24, n: nat)
    requires Iterate(v, n) == Iterate(w, n)
    ensures v == w
  {
    hide Next, Previous;
    if n > 0 {
      PreviousUndoesNext(Iterate(v, n - 1));
      PreviousUndoesNext(Iterate(w, n - 1));
      NeverMeet(v, w, n - 1);
    }
  }

  /** uint16_t v = next_LFSR() */
  function Word(v: bv24): (r: bv16)
    ensures r as bv24 == v % 0x1_0000
  {
    (v & 0xffff) as bv16
  }

  /** What is stored in word j when the register starts at `seed`. */
  function Sample(seed: bv24, j: nat): bv16 { Word(Iterate(seed, j + 1)) }

  /** How many of the first n words of two memories differ. */
  function Differences(a: seq<bv16>, b: seq<bv16>, n: nat): nat
    requires n <= |a| && n <= |b|
  {
    if n == 0 then 0 else Differences(a, b, n - 1) + if a[n - 1] != b[n - 1] then 1 else 0
  }

  function Filled(seed: bv24, n: nat): seq<bv16> { seq(n, j requires 0 <= j < n => Sample(seed, j)) }

  const UPDATE_INTERVAL: int := 0x7000

  class Tester {
    var startState: bv64
    var salt: bv32
    var lfsr: bv24
    var errors: nat
    var badpasses: nat
    var goodpasses: nat
    const words: array<bv16>

    constructor (words: array<bv16>)
      ensures this.words == words && errors == 0 && badpasses == 0 && goodpasses == 0
    {
      this.words := words;
      startState, salt, lfsr, errors, badpasses, goodpasses := 0, 0xdead_beef, 0, 0, 0, 0;
    }

    /** The state that reset_LFSR returns to */
    function Seed(): bv24 reads this`startState { Low24(startState) }

    /**
     init_LFSR; `timer` are the clock's readings, and `ok` whether one of them gave a usable
     state. The first that does is taken, the n-th.
     */
    method InitLfsr(timer: seq<bv32>) returns (ok: bool, ghost n: nat)
      modifies this`startState, this`salt, this`lfsr
      ensures n <= |timer| && salt == After(old(salt), n) && (!ok ==> n == |timer|)
      ensures forall i | 0 <= i < if ok then n - 1 else n :: Low24(Salted(timer[i], After(old(salt), i))) == 0
      ensures ok ==> n > 0 && startState == Salted(timer[n - 1], After(old(salt), n - 1))
      ensures ok ==> lfsr == Seed() && lfsr != 0
    {
      hide Low24, Salted, After;
      ok := false;
      var i := 0;
      AfterNone(salt);
      while !ok && i < |timer|
        invariant i <= |timer| && salt == After(old(salt), i)
        invariant forall k | 0 <= k < if ok then i - 1 else i :: Low24(Salted(timer[k], After(old(salt), k))) == 0
        invariant ok ==> i > 0 && startState == Salted(timer[i - 1], After(old(salt), i - 1))
        invariant ok ==> lfsr == Low24(startState) && lfsr != 0
      {
        AfterNext(old(salt), i);
        Salt(timer[i]);
        ok := lfsr != 0;
        i := i + 1;
      }
      n := i;
    }

    /** One pass of its loop */
    method Salt(timer: bv32)
      modifies this`startState, this`salt, this`lfsr
      ensures startState == Salted(timer, old(salt)) && salt == old(salt) + 1 && lfsr == Low24(startState)
    {
      hide Salted, Low24;
      startState := Salted(timer, salt);
      salt := salt + 1;
      lfsr := Low24(startState);
    }

    /** reset_LFSR */
    method ResetLfsr()
      modifies this`lfsr
      ensures lfsr == Seed()
    {
      lfsr := Low24(startState);
    }

    /** next_LFSR */
    method NextLfsr() returns (v: bv16)
      modifies this`lfsr
      ensures lfsr == Next(old(lfsr)) && v == Word(lfsr)
    {
      lfsr := Next(lfsr);
      v := Word(lfsr);
    }

    /** The filling half of a pass */
    method Fill()
      modifies this`lfsr, words
      ensures words[..] == Filled(old(lfsr), words.Length)
    {
      hide Next, Word;
      ghost var seed := lfsr;
      var i := 0;
      while i < words.Length
        invariant 0 <= i && lfsr == Iterate(seed, Min(i, words.Length))
        invariant forall j | 0 <= j < Min(i, words.Length) :: words[j] == Sample(seed, j)
        decreases words.Length - i
      {
        var k := if words.Length > i + UPDATE_INTERVAL then i + UPDATE_INTERVAL else words.Length;
        for j := i to k
          invariant lfsr == Iterate(seed, j)
          invariant forall q | 0 <= q < j :: words[q] == Sample(seed, q)
        {
          var v := NextLfsr();
          words[j] := v;
        }
        i := i + UPDATE_INTERVAL;
      }
    }

    /** The verifying half of a pass */
    method Verify() returns (passBad: bool)
      modifies this`lfsr, this`errors, this`badpasses
      ensures errors == old(errors) + Differences(words[..], Filled(old(lfsr), words.Length), words.Length)
      ensures passBad <==> words[..] != Filled(old(lfsr), words.Length)
      ensures badpasses == old(badpasses) + if passBad then 1 else 0
    {
      hide Next, Word;
      passBad := false;
      ghost var seed, good := lfsr, Filled(lfsr, words.Length);
      var i := 0;
      while i < words.Length
        invariant 0 <= i && lfsr == Iterate(seed, Min(i, words.Length))
        invariant errors == old(errors) + Differences(words[..], good, Min(i, words.Length))
        invariant passBad <==> Differences(words[..], good, Min(i, words.Length)) > 0
        invariant badpasses == old(badpasses) + if passBad then 1 else 0
        decreases words.Length - i
      {
        var k := if words.Length > i + UPDATE_INTERVAL then i + UPDATE_INTERVAL else words.Length;
        for j := i to k
          invariant lfsr == Iterate(seed, j)
          invariant errors == old(errors) + Differences(words[..], good, j)
          invariant passBad <==> Differences(words[..], good, j) > 0
          invariant badpasses == old(badpasses) + if passBad then 1 else 0
        {
          var v := NextLfsr();
          if words[j] != v {
            errors := errors + 1;
            if !passBad {
              badpasses := badpasses + 1;
            }
            passBad := true;
          }
        }
        i := i + UPDATE_INTERVAL;
      }
      NoDifferences(words[..], good, words.Length);
    }
  }

  function Min(a: int, b: int): int { if a < b then a else b }

  function Low24(s: bv64): bv24 { (s & 0xff_ffff) as bv24 }

  lemma Low24IsModulo(s: bv64)
    ensures Low24(s) as bv64 == s % 0x100_0000
  {
  }

  /** The salt after `n` readings */
  function After(salt: bv32, n: nat): bv32 { if n == 0 then salt else After(salt, n - 1) + 1 }

  lemma AfterNone(salt: bv32)
    ensures After(salt, 0) == salt
  {
  }

  lemma AfterNext(salt: bv32, n: nat)
    ensures After(salt, n + 1) == After(salt, n) + 1
  {
  }

  lemma SaltedIs(timer: bv32, salt: bv32)
    ensures var s := (timer as bv64) + (salt as bv64); Salted(timer, salt) == if s > 0xff_ffff then s + 1 else s
  {
  }

  /** start_state = _TIMER_100HZ; start_state += salt++; and one more when it does not fit 24 bits */
  function Salted(timer: bv32, salt: bv32): bv64 {
    var s := (timer as bv64) + (salt as bv64);
    if s > 0xff_ffff then s + 1 else s
  }

  lemma {:induction false} NoDifferences(a: seq<bv16>, b: seq<bv16>, n: nat)
    requires n <= |a| && n <= |b|
    ensures Differences(a, b, n) == 0 <==> a[..n] == b[..n]
  {
    if n > 0 {
      NoDifferences(a, b, n - 1);
      assert a[..n] == a[..n - 1] + [a[n - 1]] && b[..n] == b[..n - 1] + [b[n - 1]];
      if a[..n] == b[..n] {
        assert a[..n - 1] == a[..n][..n - 1] == b[..n][..n - 1] == b[..n - 1];
        assert a[n - 1] == a[..n][n - 1] == b[..n][n - 1] == b[n - 1];
      }
    }
  }

  // ---------------------------------------------------------------------------
  // Passes
  // ---------------------------------------------------------------------------

  /** One uninterrupted pass: `after` is what the memory holds when it is verified. */
  method Pass(t: Tester, timer: seq<bv32>, after: seq<bv16>) returns (ok: bool, ghost filled: seq<bv16>)
    requires |after| == t.words.Length
    modifies t, t.words
    ensures |filled| == |after|
    ensures ok ==> t.errors == old(t.errors) + Differences(after, filled, |after|)
    ensures ok ==> t.badpasses == old(t.badpasses) + (if after == filled then 0 else 1)
    ensures ok ==> t.goodpasses == old(t.goodpasses) + (if after == filled then 1 else 0)
    ensures ok ==> t.words[..] == after
    ensures ok ==> exists seed: bv24 :: seed != 0 && filled == Filled(seed, |after|)
    ensures !ok ==> t.errors == old(t.errors) && t.badpasses == old(t.badpasses) && t.goodpasses == old(t.goodpasses)
  {
    filled := after;
    ghost var n;
    ok, n := t.InitLfsr(timer);
    if !ok { return; }
    ghost var seed := t.lfsr;
    t.Fill();
    filled := t.words[..];
    Corrupt(t.words, after);
    t.ResetLfsr();
    var passBad := t.Verify();
    if !passBad {
      t.goodpasses := t.goodpasses + 1;
    }
  }

  /** What happens to the memory between filling and verifying. */
  method Corrupt(words: array<bv16>, after: seq<bv16>)
    requires |after| == words.Length
    modifies words
    ensures words[..] == after
  {
    for j := 0 to words.Length
      invariant forall q | 0 <= q < j :: words[q] == after[q]
    {
      words[j] := after[j];
    }
  }
}
