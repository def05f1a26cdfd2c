/**
 * The shape both chart scripts share: a loop over the rows of the report
 * that appends each row's entries to one list, stopped by the first
 * exception a row raises.
 */
module Flatten {
  import opened Wrappers

  /** The list after the loop over `rows`, each row giving its entries by
      `f`, or the first exception. */
  function Gather<R, P, E>(rows: seq<R>, f: R -> Result<seq<P>, E>): Result<seq<P>, E> {
    if rows == [] then Success([])
    else
      var earlier :- Gather(rows[..|rows| - 1], f);
      var last :- f(rows[|rows| - 1]);
      Success(earlier + last)
  }

  /** One more row: its entries follow, or its exception ends the list. */
  lemma GatherSnoc<R, P, E>(rows: seq<R>, row: R, f: R -> Result<seq<P>, E>)
    ensures Gather(rows + [row], f).Success? <==> Gather(rows, f).Success? && f(row).Success?
    ensures Gather(rows + [row], f).Success? ==> Gather(rows + [row], f).value == Gather(rows, f).value + f(row).value
    ensures Gather(rows, f).Success? && f(row).Failure? ==> Gather(rows + [row], f) == Failure(f(row).error)
    ensures Gather(rows, f).Failure? ==> Gather(rows + [row], f) == Gather(rows, f)
  {
    assert (rows + [row])[..|rows|] == rows;
  }

  /** Rows read in two parts give the two lists of entries in turn. */
  lemma {:induction false} GatherAppend<R, P, E>(rows: seq<R>, more: seq<R>, f: R -> Result<seq<P>, E>)
    requires Gather(rows, f).Success? && Gather(more, f).Success?
    ensures Gather(rows + more, f) == Success(Gather(rows, f).value + Gather(more, f).value)
    decreases |more|
  {
    if more == [] {
      assert rows + more == rows;
      assert Gather(more, f).value == [];
      assert Gather(rows, f).value + [] == Gather(rows, f).value;
    } else {
      var init, last := more[..|more| - 1], more[|more| - 1];
      assert more == init + [last];
      GatherSnoc(init, last, f);
      GatherAppend(rows, init, f);
      GatherAppendSnoc(rows, init, last, f);
    }
  }

  lemma GatherAppendSnoc<R, P, E>(rows: seq<R>, init: seq<R>, last: R, f: R -> Result<seq<P>, E>)
    requires Gather(rows, f).Success? && Gather(init, f).Success? && f(last).Success?
    requires Gather(rows + init, f) == Success(Gather(rows, f).value + Gather(init, f).value)
    ensures Gather(rows + (init + [last]), f) == Success(Gather(rows, f).value + Gather(init + [last], f).value)
  {
    Associative(rows, init, [last]);
    GatherSnoc(init, last, f);
    GatherSnoc(rows + init, last, f);
    Associative(Gather(rows, f).value, Gather(init, f).value, f(last).value);
  }

  /** Concatenation regroups; stated once over any element type, which keeps
      the steps above that use it small. */
  lemma Associative<T>(a: seq<T>, b: seq<T>, c: seq<T>)
    ensures a + (b + c) == (a + b) + c
  {
  }

  /** Once a prefix of the rows raises, the whole loop raises the same. */
  lemma {:induction false} GatherFailureSticks<R, P, E>(rows: seq<R>, i: nat, f: R -> Result<seq<P>, E>)
    requires i <= |rows| && Gather(rows[..i], f).Failure?
    ensures Gather(rows, f) == Gather(rows[..i], f)
    decreases |rows| - i
  {
    if i < |rows| {
      assert rows[..i + 1] == rows[..i] + [rows[i]];
      GatherSnoc(rows[..i], rows[i], f);
      GatherFailureSticks(rows, i + 1, f);
    } else {
      assert rows[..i] == rows;
    }
  }

  /** Every row of a loop that did not raise gave its entries. */
  lemma {:induction false} GatherRowsSucceed<R, P, E>(rows: seq<R>, f: R -> Result<seq<P>, E>)
    requires Gather(rows, f).Success?
    ensures forall i :: 0 <= i < |rows| ==> f(rows[i]).Success?
  {
    if rows != [] {
      var init, last := rows[..|rows| - 1], rows[|rows| - 1];
      assert rows == init + [last];
      GatherSnoc(init, last, f);
      GatherRowsSucceed(init, f);
      assert forall i :: 0 <= i < |init| ==> rows[i] == init[i];
    }
  }

  /** Each entry of the list comes from some row. */
  lemma {:induction false} GatherFrom<R, P, E>(rows: seq<R>, f: R -> Result<seq<P>, E>, p: P)
    requires Gather(rows, f).Success? && p in Gather(rows, f).value
    ensures exists i :: 0 <= i < |rows| && f(rows[i]).Success? && p in f(rows[i]).value
  {
    var init, last := rows[..|rows| - 1], rows[|rows| - 1];
    assert rows == init + [last];
    GatherSnoc(init, last, f);
    if p in Gather(init, f).value {
      GatherFrom(init, f, p);
      var i :| 0 <= i < |init| && f(init[i]).Success? && p in f(init[i]).value;
      assert rows[i] == init[i];
    } else {
      assert f(rows[|rows| - 1]).Success? && p in f(rows[|rows| - 1]).value;
    }
  }

  /** Each entry of each row is in the list. */
  lemma {:induction false} GatherTo<R, P, E>(rows: seq<R>, f: R -> Result<seq<P>, E>, i: nat, p: P)
    requires Gather(rows, f).Success? && i < |rows| && f(rows[i]).Success? && p in f(rows[i]).value
    ensures p in Gather(rows, f).value
  {
    var init, last := rows[..|rows| - 1], rows[|rows| - 1];
    assert rows == init + [last];
    GatherSnoc(init, last, f);
    if i < |init| {
      assert rows[i] == init[i];
      GatherTo(init, f, i, p);
    }
  }
}
