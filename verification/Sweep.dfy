/** The keyset sweep over due activations. */
module Sweep {
  import opened Scheduler

  const PAGE: nat := 100

  const ZERO: Row := Row(NIL, NIL)

  /** Row order of (environment_id, id). */
  predicate Less(p: Row, q: Row) {
    p.env < q.env || (p.env == q.env && p.id < q.id)
  }

  /** The order is a strict total order, and the zero position comes before every
      row of an Environment. */
  lemma LessIsTotal(p: Row, q: Row, r: Row)
    ensures !Less(p, p) && (p == q || Less(p, q) || Less(q, p)) && !(Less(p, q) && Less(q, p))
    ensures Less(p, q) && Less(q, r) ==> Less(p, r)
    ensures p.env != NIL ==> Less(ZERO, p)
    ensures p.env < q.env ==> Less(p, q)
  {
  }

  function Above(due: set<Row>, after: Row): set<Row> {
    set p | p in due && Less(after, p)
  }

  predicate IsLeast(p: Row, s: set<Row>) {
    p in s && forall q :: q in s ==> p == q || Less(p, q)
  }

  lemma {:induction false} LeastExists(s: set<Row>)
    requires s != {}
    ensures exists p :: IsLeast(p, s)
  {
    var p :| p in s;
    if s == {p} {
      assert IsLeast(p, s);
    } else {
      var others := s - {p};
      LeastExists(others);
      var rest :| IsLeast(rest, others);
      var least := if Less(p, rest) then p else rest;
      forall q | q in s
        ensures least == q || Less(least, q)
      {
        if q != p {
          assert q in others;
        }
      }
      assert IsLeast(least, s);
    }
  }

  ghost function Least(s: set<Row>): (least: Row)
    requires s != {}
    ensures IsLeast(least, s)
  {
    LeastExists(s);
    var p :| IsLeast(p, s);
    p
  }

  lemma AboveShrinks(due: set<Row>, after: Row)
    requires Above(due, after) != {}
    ensures Above(due, Least(Above(due, after))) == Above(due, after) - {Least(Above(due, after))}
  {
  }

  /** The due rows after a position, in key order. */
  ghost function Ascending(due: set<Row>, after: Row): (rows: seq<Row>)
    decreases |Above(due, after)|
  {
    if Above(due, after) == {} then []
    else
      AboveShrinks(due, after);
      [Least(Above(due, after))] + Ascending(due, Least(Above(due, after)))
  }

  /** The rows after a position, each once, in strictly increasing key order. */
  lemma {:induction false} AscendingIsExact(due: set<Row>, after: Row)
    ensures var rows := Ascending(due, after);
      && (forall p :: p in rows <==> p in due && Less(after, p))
      && (forall i, j :: 0 <= i < j < |rows| ==> Less(rows[i], rows[j]))
    decreases |Above(due, after)|
  {
    assert forall p :: p in Above(due, after) <==> p in due && Less(after, p);
    if Above(due, after) != {} {
      AboveShrinks(due, after);
      AscendingIsExact(due, Least(Above(due, after)));
    }
  }

  /** The order depends only on the rows after the position. */
  lemma {:induction false} AscendingLooksAhead(due: set<Row>, due': set<Row>, after: Row)
    requires Above(due, after) == Above(due', after)
    ensures Ascending(due, after) == Ascending(due', after)
    decreases |Above(due, after)|
  {
    if Above(due, after) != {} {
      AboveShrinks(due, after);
      AboveShrinks(due', after);
      AscendingLooksAhead(due, due', Least(Above(due, after)));
    }
  }

  /** Continuing after the n-th row yields the remaining rows. */
  lemma {:induction false} AscendingContinues(due: set<Row>, after: Row, n: nat)
    requires n < |Ascending(due, after)|
    ensures Ascending(due, Ascending(due, after)[n]) == Ascending(due, after)[n + 1..]
    decreases n
  {
    AboveShrinks(due, after);
    if n > 0 {
      AscendingContinues(due, Least(Above(due, after)), n - 1);
    }
  }

  /** The query result: the first rows after the position, at most a page. */
  ghost function Page(due: set<Row>, after: Row): seq<Row> {
    var rows := Ascending(due, after);
    if |rows| <= PAGE then rows else rows[..PAGE]
  }

  /** How an attempt to evaluate a row ends: it may fail, and it may leave the
      row due or not. */
  datatype Ending = Ending(failed: bool, stillDue: bool)

  /** The due rows after the attempts on `rows`. */
  ghost function Remaining(due: set<Row>, rows: seq<Row>, ends: Row -> Ending): set<Row> {
    set p | p in due && (p in rows ==> ends(p).stillDue)
  }

  lemma RemainingComposes(due: set<Row>, rows: seq<Row>, more: seq<Row>, ends: Row -> Ending)
    ensures Remaining(Remaining(due, rows, ends), more, ends) == Remaining(due, rows + more, ends)
  {
  }

  /** After a full page, the next query continues with the rows that follow it,
      whichever rows of the page are still due. */
  lemma PageStep(due: set<Row>, after: Row, ends: Row -> Ending)
    requires |Ascending(due, after)| >= PAGE
    ensures var page := Page(due, after);
      Ascending(Remaining(due, page, ends), page[PAGE - 1]) == Ascending(due, after)[PAGE..]
  {
    var rows, page := Ascending(due, after), Page(due, after);
    var last := page[PAGE - 1];
    AscendingIsExact(due, after);
    AscendingContinues(due, after, PAGE - 1);
    forall p | p in page
      ensures !Less(last, p)
    {
      var i :| 0 <= i < PAGE && rows[i] == p;
    }
    assert Above(Remaining(due, page, ends), last) == Above(due, last);
    AscendingLooksAhead(Remaining(due, page, ends), due, last);
  }

  /** How a call of the reconciliation ends. */
  datatype CallEnding = Completed | QueryFailed | Cancelled

  class Reconciler {
    var due: set<Row>
    var attempts: seq<Row>
    var failures: seq<Row>
    var done: bool
    const ends: Row -> Ending

    constructor (due: set<Row>, ends: Row -> Ending)
      ensures this.due == due && this.ends == ends && attempts == [] && failures == [] && !done
    {
      this.due, this.ends, attempts, failures, done := due, ends, [], [], false;
    }

    /** Looks at the context, which may end at any time. */
    method Err() returns (cancelled: bool)
      modifies this`done
      ensures cancelled == done && (old(done) ==> done)
    {
      var ended: bool := *;
      done := done || ended;
      cancelled := done;
    }

    /** The rows of the attempts that failed, in order. */
    function Failing(rows: seq<Row>): seq<Row> {
      if rows == [] then []
      else Failing(rows[..|rows| - 1]) + (if ends(rows[|rows| - 1]).failed then [rows[|rows| - 1]] else [])
    }

    lemma FailingAppends(rows: seq<Row>, more: seq<Row>)
      ensures Failing(rows + more) == Failing(rows) + Failing(more)
    {
      if more == [] {
        assert rows + more == rows;
      } else {
        assert (rows + more)[..|rows + more| - 1] == rows + more[..|more| - 1];
        FailingAppends(rows, more[..|more| - 1]);
      }
    }

    /** What the first `n` attempts on the page have done. */
    twostate predicate Attempted(page: seq<Row>, n: nat)
      reads this
    {
      && n <= |page|
      && attempts == old(attempts) + page[..n] && failures == old(failures) + Failing(page[..n])
      && due == Remaining(old(due), page[..n], ends)
    }

    /** One attempt; a failure is collected and passed over. */
    method Attempt(p: Row)
      modifies this`due, this`attempts, this`failures
      ensures attempts == old(attempts) + [p] && failures == old(failures) + Failing([p])
      ensures due == Remaining(old(due), [p], ends)
    {
      attempts := attempts + [p];
      if ends(p).failed {
        failures := failures + [p];
      }
      if !ends(p).stillDue {
        due := due - {p};
      }
      assert [p][..0] == [];
    }

    lemma AttemptExtends(before: set<Row>, page: seq<Row>, i: nat)
      requires i < |page|
      ensures page[..i + 1] == page[..i] + [page[i]]
      ensures Failing(page[..i + 1]) == Failing(page[..i]) + Failing([page[i]])
      ensures Remaining(before, page[..i + 1], ends) == Remaining(Remaining(before, page[..i], ends), [page[i]], ends)
    {
      assert page[..i + 1] == page[..i] + [page[i]];
      FailingAppends(page[..i], [page[i]]);
      RemainingComposes(before, page[..i], [page[i]], ends);
    }

    /** One call: the query may fail and the context may be cancelled before any
        attempt; otherwise the whole page is attempted in order, whatever fails.
        The position returned is the last row attempted, and is reset only by a
        call that completes a short page. */
    method ReconcileTriggers(start: Row, queryFails: bool) returns (after: Row, more: bool, ending: CallEnding, ghost n: nat)
      modifies this
      ensures Attempted(old(Page(due, start)), n)
      ensures ending == QueryFailed <==> queryFails
      ensures ending == QueryFailed ==> n == 0
      ensures (ending == Cancelled ==> done) && (old(done) ==> done && n == 0)
      ensures ending == Completed ==> n == |old(Page(due, start))| && (more <==> n == PAGE)
      ensures ending != Completed ==> !more
      ensures after == if ending == Completed && !more then ZERO else if n == 0 then start else old(Page(due, start))[n - 1]
    {
      n := 0;
      if queryFails {
        return start, false, QueryFailed, 0;
      }
      var page := Query(due, start);
      after := start;
      var i := 0;
      while i < |page|
        invariant i <= |page| && Attempted(page, i)
        invariant after == if i == 0 then start else page[i - 1]
        invariant old(done) ==> done && i == 0
      {
        var cancelled := Err();
        if cancelled {
          return after, false, Cancelled, i;
        }
        AttemptExtends(old(due), page, i);
        Concat(old(attempts), page[..i], [page[i]]);
        Concat(old(failures), Failing(page[..i]), Failing([page[i]]));
        Attempt(page[i]);
        after := page[i];
        i := i + 1;
      }
      more := |page| == PAGE;
      if !more {
        after := ZERO;
      }
      ending, n := Completed, i;
    }

    /** What is still to be attempted from a position. */
    ghost function Rest(after: Row, going: bool): seq<Row>
      reads this
    {
      if going then Ascending(due, after) else []
    }

    /** One call leaves exactly the rest of the sweep to do; a cancelled one has
        attempted a first part of it. */
    method Pass(start: Row, queryFails: bool) returns (after: Row, going: bool, cancelled: bool)
      modifies this
      ensures old(attempts) <= attempts <= old(attempts) + old(Rest(start, true))
      ensures cancelled ==> done
      ensures !cancelled ==>
        && attempts + Rest(after, going) == old(attempts) + old(Rest(start, true))
        && failures + Failing(Rest(after, going)) == old(failures) + Failing(old(Rest(start, true)))
        && Remaining(due, Rest(after, going), ends) == Remaining(old(due), old(Rest(start, true)), ends)
        && (going && !queryFails ==> |Rest(after, going)| < |old(Rest(start, true))|)
        && (queryFails ==> going) && (!going ==> after == ZERO)
    {
      ghost var rest, page := Ascending(due, start), Page(due, start);
      var more, ending;
      ghost var n;
      after, more, ending, n := ReconcileTriggers(start, queryFails);
      going, cancelled := more || ending == QueryFailed, ending == Cancelled;
      if ending == Completed {
        PageDone(old(due), start, old(attempts), old(failures));
      } else if ending == QueryFailed {
        assert page[..0] == [] && due == old(due) && attempts == old(attempts) && failures == old(failures);
      }
      assert page[..n] <= page <= rest;
    }

    lemma PageDone(before: set<Row>, start: Row, tried: seq<Row>, failed: seq<Row>)
      ensures var rest, page := Ascending(before, start), Page(before, start);
        var rest' := if |page| == PAGE then rest[PAGE..] else [];
        && page[..|page|] == page && rest == page + rest'
        && (tried + page) + rest' == tried + rest
        && (failed + Failing(page)) + Failing(rest') == failed + Failing(rest)
        && Remaining(Remaining(before, page, ends), rest', ends) == Remaining(before, rest, ends)
        && (|page| == PAGE ==> Ascending(Remaining(before, page, ends), page[PAGE - 1]) == rest')
    {
      var rest, page := Ascending(before, start), Page(before, start);
      var rest' := if |page| == PAGE then rest[PAGE..] else [];
      assert rest == page + rest';
      FailingAppends(page, rest');
      RemainingComposes(before, page, rest', ends);
      if |page| == PAGE {
        PageStep(before, start, ends);
      }
      Concat(tried, page, rest');
      Concat(failed, Failing(page), Failing(rest'));
    }

    /** The calls from the zero position until one completes a short page, with any
        finite number of query failures among them: every due row is attempted
        exactly once, in key order, however many attempts fail, and the position is
        back at zero. A sweep whose context ended has attempted a first part of that
        list. */
    method SweepOnce(outages: nat) returns (after: Row, cancelled: bool)
      modifies this
      ensures !cancelled ==>
        && attempts == old(attempts) + Ascending(old(due), ZERO)
        && failures == old(failures) + Failing(Ascending(old(due), ZERO))
        && due == Remaining(old(due), Ascending(old(due), ZERO), ends)
        && after == ZERO
      ensures old(attempts) <= attempts <= old(attempts) + Ascending(old(due), ZERO)
      ensures cancelled ==> done
    {
      after, cancelled := ZERO, false;
      var going, left := true, outages;
      while going
        invariant attempts + Rest(after, going) == old(attempts) + Ascending(old(due), ZERO)
        invariant failures + Failing(Rest(after, going)) == old(failures) + Failing(Ascending(old(due), ZERO))
        invariant Remaining(due, Rest(after, going), ends) == Remaining(old(due), Ascending(old(due), ZERO), ends)
        invariant old(attempts) <= attempts && (!going ==> after == ZERO) && !cancelled
        decreases left, |Rest(after, going)|, going
      {
        var queryFails: bool := *;
        queryFails := queryFails && left > 0;
        if queryFails {
          left := left - 1;
        }
        after, going, cancelled := Pass(after, queryFails);
        if cancelled {
          return;
        }
      }
    }
  }

  lemma Concat(a: seq<Row>, b: seq<Row>, c: seq<Row>)
    ensures (a + b) + c == a + (b + c)
  {
  }

  /** The page query, by repeated choice of the least remaining row. */
  method Query(due: set<Row>, after: Row) returns (page: seq<Row>)
    ensures page == Page(due, after)
  {
    page := [];
    var position := after;
    var left := Above(due, after);
    while |page| < PAGE && left != {}
      invariant left == Above(due, position) && |page| <= PAGE
      invariant Ascending(due, after) == page + Ascending(due, position)
      decreases |left|
    {
      LeastExists(left);
      var p :| p in left && IsLeast(p, left);
      AboveShrinks(due, position);
      assert p == Least(left);
      page := page + [p];
      left := left - {p};
      position := p;
    }
  }
}
