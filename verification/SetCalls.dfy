/** What calls may do to, and see of, an object that stands for a set of key-value pairs. */
module SetCalls {
  type Pairs = set<(int, int)>

  predicate Lacks(s: Pairs, key: int) {
    forall x :: x in s ==> x.0 != key
  }

  /** The key was absent and is now bound to the value; nothing else changed. */
  function Adds(key: int, val: int): (Pairs, Pairs) -> bool {
    (before, after) => Lacks(before, key) && after == before + {(key, val)}
  }

  /** The key was bound to the value and is absent now; nothing else changed. */
  function Removes(key: int, val: int): (Pairs, Pairs) -> bool {
    (before, after) => (key, val) in before && after == before - {(key, val)} && Lacks(after, key)
  }

  function IsAbsent(key: int): Pairs -> bool {
    s => Lacks(s, key)
  }

  function IsBound(key: int, val: int): Pairs -> bool {
    s => (key, val) in s
  }

  function IsPresent(key: int): Pairs -> bool {
    s => !Lacks(s, key)
  }
}
