/** The versioned lock in its integer form: odd versions are locked, an unlock and a lock both
    add one, a revert takes the lock's one back. The argument that makes an unchanged version
    mean unchanged data is the `Floor` of a lock word. */
module OptikLock {

  /** Who holds the lock, whether the holder has written to the protected data yet, and `Gone`
      for a lock that is never released again. Bookkeeping next to the version word. */
  datatype Owner = Free | By(t: nat, wrote: bool) | Gone

  datatype Word = Word(version: nat, owner: Owner)

  const OPTIK_INIT: nat := 0

  predicate IsLocked(version: nat) {
    version % 2 == 1
  }

  /** Odd versions are exactly the locked ones. */
  ghost predicate Consistent(w: Word) {
    IsLocked(w.version) <==> w.owner != Free
  }

  predicate HeldBy(w: Word, t: nat) {
    w.owner.By? && w.owner.t == t
  }

  /** The CAS of trylock_version succeeds: the version is the expected one and not locked. */
  predicate CanLock(w: Word, expected: nat) {
    !IsLocked(expected) && w.version == expected
  }

  function Locked(w: Word, t: nat): Word {
    Word(w.version + 1, By(t, false))
  }

  function Unlocked(w: Word): Word {
    Word(w.version + 1, Free)
  }

  function Reverted(w: Word): Word
    requires 0 < w.version
  {
    Word(w.version - 1, Free)
  }

  function Written(w: Word, t: nat): Word {
    w.(owner := By(t, true))
  }

  function Buried(w: Word): Word {
    w.(owner := Gone)
  }

  /** The version to which the lock can still come back. It is even exactly as long as the data
      are those of that version. */
  function Floor(w: Word): nat {
    if IsLocked(w.version) && w.owner.By? && !w.owner.wrote then w.version - 1 else w.version
  }

  /** From one state of lock and data to a later one: the floor never sinks, and as long as it
      stays on an even version the data stay what they were. */
  ghost predicate Since<D>(w: Word, d: D, w': Word, d': D) {
    Floor(w) <= Floor(w') && (Floor(w) == Floor(w') && !IsLocked(Floor(w)) ==> d == d')
  }

  lemma SinceTransitive<D>(w0: Word, d0: D, w1: Word, d1: D, w2: Word, d2: D)
    requires Since(w0, d0, w1, d1) && Since(w1, d1, w2, d2)
    ensures Since(w0, d0, w2, d2)
  {
  }

  /** The operations of the lock, with the data left alone or written under the lock. */
  lemma OperationsKeepSince<D>(w: Word, d: D, d': D, t: nat)
    requires Consistent(w)
    ensures !IsLocked(w.version) ==> Since(w, d, Locked(w, t), d) && Consistent(Locked(w, t))
    ensures HeldBy(w, t) ==> Since(w, d, Unlocked(w), d) && Consistent(Unlocked(w))
    ensures HeldBy(w, t) ==> Since(w, d, Written(w, t), d') && Consistent(Written(w, t))
    ensures HeldBy(w, t) ==> Since(w, d, Buried(w), d) && Consistent(Buried(w))
    ensures HeldBy(w, t) && !w.owner.wrote ==> Since(w, d, Reverted(w), d) && Consistent(Reverted(w))
  {
  }

  /** If the same even version is read before and after, whatever was read in between is what
      the data were all the time, even when others locked and reverted meanwhile. */
  lemma SameVersionSameData<D>(w0: Word, d0: D, w1: Word, d1: D, w2: Word, d2: D)
    requires Since(w0, d0, w1, d1) && Since(w1, d1, w2, d2)
    requires Consistent(w0) && Consistent(w2) && !IsLocked(w0.version) && w2.version == w0.version
    ensures d0 == d1 == d2
  {
  }
}
