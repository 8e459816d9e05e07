/**
 * Document ids of the backend tables. The database picks an unused id for
 * every insert; here a table's ids are the decimal numerals of a counter
 * that only grows.
 */
module Ids {
  import opened Text

  /** The id a counter value names. */
  function IdOf(n: nat): string {
    NatToString(n)
  }

  /** Different counter values name different ids. */
  lemma IdOfInjective(a: nat, b: nat)
    ensures IdOf(a) == IdOf(b) ==> a == b
  {
    DigitsOfNat(a);
    DigitsOfNat(b);
  }

  /** The ids the counter gives from `next` on are not in use. */
  ghost predicate FreshFrom<T>(rows: map<string, T>, next: nat) {
    forall n: nat | n >= next :: IdOf(n) !in rows
  }

  /** Taking the counter's id and stepping it keeps the later ids fresh. */
  lemma FreshAfterInsert<T>(rows: map<string, T>, next: nat, row: T)
    requires FreshFrom(rows, next)
    ensures IdOf(next) !in rows
    ensures FreshFrom(rows[IdOf(next) := row], next + 1)
  {
    forall n: nat | n >= next + 1 ensures IdOf(n) != IdOf(next) {
      IdOfInjective(n, next);
    }
  }
}
