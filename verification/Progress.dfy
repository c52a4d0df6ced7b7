/** Work left over a finite table: it drops when one entry gets smaller or disappears. */
module Progress {
  import opened Basics

  /** One for every entry, and its own amount. */
  ghost function TotalOf<T>(table: map<int, T>, amount: T -> nat): nat
    decreases |table|
  {
    if table.Keys == {} then 0 else
      var t := AnyOf(table.Keys);
      1 + amount(table[t]) + TotalOf(table - {t}, amount)
  }

  lemma WithoutBoth<T>(table: map<int, T>, t: int, u: int)
    ensures table - {u} - {t} == table - {t} - {u}
  {
  }

  lemma {:induction false} TotalSplits<T>(table: map<int, T>, amount: T -> nat, t: int)
    requires t in table
    ensures TotalOf(table, amount) == 1 + amount(table[t]) + TotalOf(table - {t}, amount)
    decreases |table|
  {
    var u := AnyOf(table.Keys);
    if u != t {
      TotalSplits(table - {u}, amount, t);
      TotalSplits(table - {t}, amount, u);
      WithoutBoth(table, t, u);
    }
  }

  lemma TotalDrops<T>(table: map<int, T>, amount: T -> nat, t: int, next: map<int, T>)
    requires t in table
    requires (t in next && next == table[t := next[t]] && amount(next[t]) < amount(table[t])) || next == table - {t}
    ensures TotalOf(next, amount) < TotalOf(table, amount)
  {
    TotalSplits(table, amount, t);
    if t in next {
      TotalSplits(next, amount, t);
      assert next - {t} == table - {t};
    }
  }
}
