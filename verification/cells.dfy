/** One family of Redis keys, seen as a typed map whose entries may expire.

    Time is a whole number of seconds. An entry can be read strictly before its
    deadline; an entry past its deadline stays in the map until something
    replaces it, exactly as Redis leaves expired keys to be collected later. */
module Cells {
  import opened Prelude

  datatype Entry<+T> = Entry(value: T, deadline: Option<int>)

  type Cells<T> = map<string, Entry<T>>

  predicate Live<T>(m: Cells<T>, k: string, now: int) {
    k in m && (m[k].deadline.Some? ==> now < m[k].deadline.value)
  }

  /** GET. */
  function Read<T>(m: Cells<T>, k: string, now: int): Option<T> {
    if Live(m, k, now) then Some(m[k].value) else None
  }

  /** SET with an expiry. */
  function Put<T>(m: Cells<T>, k: string, v: T, now: int, ttl: int): Cells<T> {
    m[k := Entry(v, Some(now + ttl))]
  }

  /** DEL. */
  function Drop<T>(m: Cells<T>, k: string): Cells<T> {
    m - {k}
  }

  /** EXPIRE: nothing to do for an absent key, deletion for a lifetime that is
      not positive, a new deadline otherwise. */
  function SetExpiry<T>(m: Cells<T>, k: string, now: int, ttl: int): Cells<T> {
    if !Live(m, k, now) then m
    else if ttl <= 0 then m - {k}
    else m[k := Entry(m[k].value, Some(now + ttl))]
  }

  /** TTL: -2 for an absent key, -1 for a key that never expires. */
  function Ttl<T>(m: Cells<T>, k: string, now: int): int {
    if !Live(m, k, now) then -2
    else if m[k].deadline.None? then -1
    else m[k].deadline.value - now
  }

  /** INCR: counts on, keeping the deadline, or starts at one without a deadline. */
  function Increment(m: Cells<int>, k: string, now: int): Cells<int> {
    if Live(m, k, now) then m[k := Entry(m[k].value + 1, m[k].deadline)]
    else m[k := Entry(1, None)]
  }
}
