/** `date.Time`: components packed into one integer, so that comparing is cheap. */
module PackedTime {

  datatype Time = Time(ts: nat, ns: nat)

  predicate Before(a: Time, b: Time) {
    a.ts < b.ts || (a.ts == b.ts && a.ns < b.ns)
  }

  predicate After(a: Time, b: Time) {
    a.ts > b.ts || (a.ts == b.ts && a.ns > b.ns)
  }
}
