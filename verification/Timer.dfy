/** The machine timer: a 64-bit counter and a 64-bit deadline, each reached as two 32-bit registers. */
module Timer {
  import opened Words

  const MAX_HIGH: Word := 0xFFFF_FFFF
  const DWORD: nat := WORD * WORD

  function Join(high: Word, low: Word): (v: nat)
    ensures v < DWORD && v / WORD == high && v % WORD == low
  {
    DivModUnique(high * WORD + low, WORD, high, low);
    high * WORD + low
  }

  /** The value of `mtime` at each register access, in order: it may advance by any amount in between. */
  type Counter = nat -> nat

  ghost predicate Advances(mtime: Counter) {
    && (forall k: nat :: mtime(k) < DWORD)
    && forall i: nat, j: nat :: i <= j ==> mtime(i) <= mtime(j)
  }

  function HighWord(v: nat): (w: Word) { v / WORD % WORD }

  function LowWord(v: nat): (w: Word) { v % WORD }

  lemma HighGrows(a: nat, b: nat)
    requires a <= b < DWORD
    ensures HighWord(a) <= HighWord(b) && Join(HighWord(b), LowWord(b)) == b
  {
  }

  /** Attempt `j` of a read that starts with access `k`: the high word changed around the low one. */
  ghost predicate Torn(mtime: Counter, k: nat, j: nat) { HighWord(mtime(k + 3 * j)) != HighWord(mtime(k + 3 * j + 2)) }

  /** Otherwise the two halves belong to one value. */
  lemma NotTorn(mtime: Counter, k: nat, j: nat)
    requires Advances(mtime)
    ensures HighWord(mtime(k + 3 * j)) <= HighWord(mtime(k + 3 * j + 2)) <= HighWord(mtime(k + 3 * (j + 1)))
    ensures !Torn(mtime, k, j) ==> Join(HighWord(mtime(k + 3 * j)), LowWord(mtime(k + 3 * j + 1))) == mtime(k + 3 * j + 1)
  {
    var i := k + 3 * j;
    HighGrows(mtime(i), mtime(i + 1));
    HighGrows(mtime(i + 1), mtime(i + 2));
    HighGrows(mtime(i + 2), mtime(i + 3));
  }

  /** `mtime_get`: the result is the counter as it was at the low-word access of the first attempt that is not torn. */
  method MtimeGet(mtime: Counter, k: nat) returns (time: nat, n: nat)
    requires Advances(mtime)
    ensures time == mtime(k + 3 * n + 1)
    ensures !Torn(mtime, k, n) && forall j: nat :: j < n ==> Torn(mtime, k, j)
  {
    hide Advances, HighWord, LowWord, Join;
    n := 0;
    var high, low, again := HighWord(mtime(k)), LowWord(mtime(k + 1)), HighWord(mtime(k + 2));
    while again != high
      invariant high == HighWord(mtime(k + 3 * n)) && low == LowWord(mtime(k + 3 * n + 1)) && again == HighWord(mtime(k + 3 * n + 2))
      invariant forall j: nat :: j < n ==> Torn(mtime, k, j)
      decreases WORD - high
    {
      NotTorn(mtime, k, n);
      n := n + 1;
      high, low, again := HighWord(mtime(k + 3 * n)), LowWord(mtime(k + 3 * n + 1)), HighWord(mtime(k + 3 * n + 2));
    }
    NotTorn(mtime, k, n);
    time := Join(high, low);
  }

  /** The deadline register of one hart. The interrupt is pending while the counter has reached it. */
  class Mtimecmp {
    var low: Word
    var high: Word
    /** The deadlines in force since this object was made, oldest first. */
    ghost var seen: seq<nat>

    ghost predicate Valid()
      reads this
    {
      seen != [] && seen[|seen| - 1] == Join(high, low)
    }

    constructor (low: Word, high: Word)
      ensures Valid() && this.low == low && this.high == high
    {
      this.low, this.high := low, high;
      seen := [Join(high, low)];
    }

    method StoreHigh(w: Word)
      requires Valid()
      modifies this
      ensures Valid() && high == w && low == old(low) && seen == old(seen) + [Join(high, low)]
    {
      high := w;
      seen := seen + [Join(high, low)];
    }

    method StoreLow(w: Word)
      requires Valid()
      modifies this
      ensures Valid() && low == w && high == old(high) && seen == old(seen) + [Join(high, low)]
    {
      low := w;
      seen := seen + [Join(high, low)];
    }

    /** Every deadline in force since `n` is at least `time`. */
    ghost predicate NotBefore(n: nat, time: nat)
      reads this
    {
      forall i :: n <= i < |seen| ==> seen[i] >= time
    }

    /** `mtimecmp_set`: no deadline on the way is below the new one, exactly when the first store cannot be. */
    method Set(time: nat)
      requires Valid() && time < DWORD
      modifies this
      ensures Valid() && seen[|seen| - 1] == time
      ensures old(seen) <= seen && |seen| == |old(seen)| + 3
      ensures NotBefore(|old(seen)|, time) <==> HighWord(time) < MAX_HIGH || LowWord(time) <= old(low)
    {
      ghost var n := |seen|;
      SplitTime(time, low);
      StoreHigh(MAX_HIGH);
      StoreLow(LowWord(time));
      StoreHigh(HighWord(time));
      assert seen[n] == Join(MAX_HIGH, old(low)) && seen[n + 1] == Join(MAX_HIGH, LowWord(time)) && seen[n + 2] == time;
    }

    /** `timer_reset`: from the first store on, no interrupt is pending before `quantum` has passed since the counter was read. */
    method Reset(mtime: Counter, k: nat, quantum: Word) returns (n: nat)
      requires Valid() && Advances(mtime)
      modifies this
      ensures Valid() && !Torn(mtime, k, n) && seen[|seen| - 1] == (mtime(k + 3 * n + 1) + quantum) % DWORD
      ensures mtime(k + 3 * n + 1) + quantum < MAX_HIGH * WORD ==> NotBefore(|old(seen)|, mtime(k + 3 * n + 1) + quantum)
    {
      var time;
      time, n := MtimeGet(mtime, k);
      Small(time + quantum);
      Set((time + quantum) % DWORD);
    }
  }

  lemma SplitTime(time: nat, low: Word)
    requires time < DWORD
    ensures Join(HighWord(time), LowWord(time)) == time <= Join(MAX_HIGH, LowWord(time))
    ensures Join(MAX_HIGH, low) >= time <==> HighWord(time) < MAX_HIGH || LowWord(time) <= low
  {
  }

  lemma Small(t: nat)
    ensures t < MAX_HIGH * WORD ==> t % DWORD == t && HighWord(t) < MAX_HIGH
  {
  }
}
