/**
 * The transcribed table agrees with the closed form of module Wiring. The
 * proof evaluates the table one logical column at a time, which keeps every
 * proof obligation small.
 */
module LutColumns {
  import opened Lut
  import opened Wiring

  /** The entries of logical column x agree with the closed form: entry i of the table is entry i % ROWS of its column. */
  ghost predicate ColumnWired(x: nat)
  {
    |Column(x)| == ROWS && forall i | x * ROWS <= i < x * ROWS + ROWS :: Column(x)[i % ROWS] == Wired(i)
  }

  /** A column is wired once each of its seven entries is the closed form of its table index. */
  lemma ColumnFromEntries(x: nat)
    requires x < COLS && |Column(x)| == ROWS
    requires forall j | 0 <= j < ROWS :: Column(x)[j] == Wired(x * ROWS + j)
    ensures ColumnWired(x)
  {
    forall i | x * ROWS <= i < x * ROWS + ROWS ensures Column(x)[i % ROWS] == Wired(i) {
      assert i == x * ROWS + i % ROWS;
    }
  }

  lemma Column0IsWired()
    ensures ColumnWired(0)
  {
    ColumnFromEntries(0);
  }

  lemma Column1IsWired()
    ensures ColumnWired(1)
  {
    ColumnFromEntries(1);
  }

  lemma Column2IsWired()
    ensures ColumnWired(2)
  {
    ColumnFromEntries(2);
  }

  lemma Column3IsWired()
    ensures ColumnWired(3)
  {
    ColumnFromEntries(3);
  }

  lemma Column4IsWired()
    ensures ColumnWired(4)
  {
    ColumnFromEntries(4);
  }

  lemma Column5IsWired()
    ensures ColumnWired(5)
  {
    ColumnFromEntries(5);
  }

  lemma Column6IsWired()
    ensures ColumnWired(6)
  {
    ColumnFromEntries(6);
  }

  lemma Column7IsWired()
    ensures ColumnWired(7)
  {
    ColumnFromEntries(7);
  }

  lemma Column8IsWired()
    ensures ColumnWired(8)
  {
    ColumnFromEntries(8);
  }

  lemma Column9IsWired()
    ensures ColumnWired(9)
  {
    ColumnFromEntries(9);
  }

  lemma Column10IsWired()
    ensures ColumnWired(10)
  {
    ColumnFromEntries(10);
  }

  lemma Column11IsWired()
    ensures ColumnWired(11)
  {
    ColumnFromEntries(11);
  }

  lemma Column12IsWired()
    ensures ColumnWired(12)
  {
    ColumnFromEntries(12);
  }

  lemma Column13IsWired()
    ensures ColumnWired(13)
  {
    ColumnFromEntries(13);
  }

  lemma Column14IsWired()
    ensures ColumnWired(14)
  {
    ColumnFromEntries(14);
  }

  lemma Column15IsWired()
    ensures ColumnWired(15)
  {
    ColumnFromEntries(15);
  }

  lemma Column16IsWired()
    ensures ColumnWired(16)
  {
    ColumnFromEntries(16);
  }

  /** Table(col, k) is columns col(0) .. col(k - 1) laid end to end, seven entries each. */
  lemma {:induction false} TableLayout(col: nat -> seq<Addr>, k: nat)
    requires forall x | 0 <= x < k :: |col(x)| == ROWS
    ensures |Table(col, k)| == k * ROWS
    ensures forall i | 0 <= i < k * ROWS :: Table(col, k)[i] == col(i / ROWS)[i % ROWS]
  {
    if k > 0 {
      TableLayout(col, k - 1);
      forall i | 0 <= i < k * ROWS ensures Table(col, k)[i] == col(i / ROWS)[i % ROWS] {
        if i >= (k - 1) * ROWS {
          assert i / ROWS == k - 1 && i % ROWS == i - (k - 1) * ROWS;
        }
      }
    }
  }

  /** Every column of the table agrees with the closed form. */
  lemma ColumnsWired()
    ensures forall x | 0 <= x < COLS :: ColumnWired(x)
  {
    Column0IsWired();
    Column1IsWired();
    Column2IsWired();
    Column3IsWired();
    Column4IsWired();
    Column5IsWired();
    Column6IsWired();
    Column7IsWired();
    Column8IsWired();
    Column9IsWired();
    Column10IsWired();
    Column11IsWired();
    Column12IsWired();
    Column13IsWired();
    Column14IsWired();
    Column15IsWired();
    Column16IsWired();
    forall x | 0 <= x < COLS ensures ColumnWired(x) {
      assert x == 0 || x == 1 || x == 2 || x == 3 || x == 4 || x == 5 || x == 6 || x == 7 || x == 8
        || x == 9 || x == 10 || x == 11 || x == 12 || x == 13 || x == 14 || x == 15 || x == 16;
    }
  }

  /** Every entry of the table is the closed form of its index. */
  lemma LutIsWired()
    ensures |LUT| == PIXELS
    ensures forall i | 0 <= i < PIXELS :: LUT[i] == Wired(i)
  {
    ColumnsWired();
    forall i | 0 <= i < PIXELS ensures Column(i / ROWS)[i % ROWS] == Wired(i) {
      EntryWired(i);
    }
    TableWired(Column, COLS);
  }

  /** A table built from columns that agree with the closed form agrees with it entry by entry. */
  lemma TableWired(col: nat -> seq<Addr>, k: nat)
    requires k <= COLS
    requires forall x | 0 <= x < k :: |col(x)| == ROWS
    requires forall i | 0 <= i < k * ROWS :: col(i / ROWS)[i % ROWS] == Wired(i)
    ensures |Table(col, k)| == k * ROWS
    ensures forall i | 0 <= i < k * ROWS :: Table(col, k)[i] == Wired(i)
  {
    TableLayout(col, k);

  }

  /** Entry i % ROWS of column i / ROWS is the closed form of i. */
  lemma EntryWired(i: nat)
    requires i < PIXELS && forall x | 0 <= x < COLS :: ColumnWired(x)
    ensures Column(i / ROWS)[i % ROWS] == Wired(i)
  {
    assert ColumnWired(i / ROWS);
  }
}
