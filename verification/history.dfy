/** The renewal history and the LINQ pipeline that picks the current
    certificate out of it: `OrderByDescending(x => x.Date)` (a stable sort),
    `Where(x => x.Success)`, `Select(x => x.Thumbprint)`, `FirstOrDefault()`.
    Dates are `DateTime` ticks. */
module History {
  import opened Wrappers

  /** One renewal attempt. A failure carries a message, a success a thumbprint. */
  datatype RenewResult = RenewResult(
    date: int,
    success: bool,
    errorMessage: Option<string>,
    thumbprint: Option<string>)

  predicate SortedByDateDescending(s: seq<RenewResult>)
  {
    forall i, j :: 0 <= i < j < |s| ==> s[i].date >= s[j].date
  }

  /** The entries of `s` dated `d`, in list order. */
  function WithDate(s: seq<RenewResult>, d: int): seq<RenewResult>
  {
    if s == [] then []
    else if s[0].date == d then [s[0]] + WithDate(s[1..], d)
    else WithDate(s[1..], d)
  }

  /** `Where(x => x.Success)`: the successful entries, in list order. */
  function Successes(s: seq<RenewResult>): (r: seq<RenewResult>)
    ensures |r| <= |s|
    ensures forall i :: 0 <= i < |r| ==> r[i].success && r[i] in s
    ensures forall x :: x in s && x.success ==> x in r
  {
    if s == [] then []
    else
      var rest := Successes(s[1..]);
      assert forall x :: x in s ==> x == s[0] || x in s[1..];
      if s[0].success then [s[0]] + rest else rest
  }

  /** Places `x` in front of the first entry not later than it, so that `x`
      precedes every entry of `s` that has the same date. */
  function InsertByDate(x: RenewResult, s: seq<RenewResult>): (r: seq<RenewResult>)
    requires SortedByDateDescending(s)
    ensures SortedByDateDescending(r)
    ensures |r| == |s| + 1
    ensures r[0] == x || (s != [] && r[0] == s[0])
  {
    if s == [] || s[0].date <= x.date then [x] + s
    else
      var t := InsertByDate(x, s[1..]);
      assert s[0].date >= t[0].date;
      [s[0]] + t
  }

  /** Insertion adds `x` and loses nothing. */
  lemma {:induction false} InsertByDateCounts(x: RenewResult, s: seq<RenewResult>)
    requires SortedByDateDescending(s)
    ensures multiset(InsertByDate(x, s)) == multiset(s) + multiset{x}
  {
    if s != [] && s[0].date > x.date {
      InsertByDateCounts(x, s[1..]);
      assert s == [s[0]] + s[1..];
    }
  }

  /** `OrderByDescending(x => x.Date)`: a stable insertion sort. */
  function OrderByDateDescending(h: seq<RenewResult>): (r: seq<RenewResult>)
    ensures SortedByDateDescending(r)
    ensures multiset(r) == multiset(h)
  {
    if h == [] then []
    else
      var t := OrderByDateDescending(h[1..]);
      assert h == [h[0]] + h[1..];
      InsertByDateCounts(h[0], t);
      InsertByDate(h[0], t)
  }

  /** The first successful entry of `s`, if any. */
  function FirstSuccess(s: seq<RenewResult>): Option<RenewResult>
  {
    var ok := Successes(s);
    if |ok| == 0 then None else Some(ok[0])
  }

  /** Reference definition of the authoritative entry: successful, no
      successful entry is later, and every earlier-listed successful entry is
      strictly older (list position breaks date ties). */
  predicate IsLatestSuccess(h: seq<RenewResult>, k: int)
  {
    && 0 <= k < |h|
    && h[k].success
    && (forall j :: 0 <= j < |h| && h[j].success ==> h[j].date <= h[k].date)
    && (forall j :: 0 <= j < k && h[j].success ==> h[j].date < h[k].date)
  }

  /** The index of the authoritative entry, found by one scan of the list. */
  function LatestIndex(h: seq<RenewResult>): (k: Option<nat>)
    ensures k.Some? ==> IsLatestSuccess(h, k.value)
    ensures k.None? ==> forall i :: 0 <= i < |h| ==> !h[i].success
  {
    if h == [] then None
    else
      var t := h[1..];
      var rest := LatestIndex(t);
      assert forall i :: 1 <= i < |h| ==> h[i] == t[i - 1];
      if !h[0].success then
        (if rest.None? then None else Some(rest.value + 1))
      else if rest.None? || t[rest.value].date <= h[0].date then Some(0)
      else Some(rest.value + 1)
  }

  /** The entry the LINQ pipeline settles on: the first success after the
      stable descending sort. */
  function LatestSuccess(h: seq<RenewResult>): (e: Option<RenewResult>)
    ensures LatestIndex(h).None? ==> e.None?
    ensures LatestIndex(h).Some? ==> e == Some(h[LatestIndex(h).value])
  {
    SortedFirstSuccessIsLatestIndex(h);
    FirstSuccess(OrderByDateDescending(h))
  }

  /** `Select(x => x.Thumbprint).FirstOrDefault()` on a history that may be
      null: null when the history is null or holds no success, otherwise the
      thumbprint (itself possibly null) of the authoritative entry. */
  function LatestThumbprint(history: Option<seq<RenewResult>>): (t: Option<string>)
    ensures history.None? ==> t.None?
    ensures history.Some? && LatestIndex(history.value).None? ==> t.None?
    ensures history.Some? && LatestIndex(history.value).Some? ==>
              t == history.value[LatestIndex(history.value).value].thumbprint
  {
    match history
    case None => None
    case Some(h) =>
      match LatestSuccess(h)
      case None => None
      case Some(e) => e.thumbprint
  }

  // ---------------------------------------------------------------------
  // Stability of the sort

  lemma {:induction false} InsertByDateIsStable(x: RenewResult, s: seq<RenewResult>, d: int)
    requires SortedByDateDescending(s)
    ensures WithDate(InsertByDate(x, s), d) == WithDate([x] + s, d)
    decreases |s|
  {
    assert ([x] + s)[1..] == s;
    if s == [] || s[0].date <= x.date {
    } else {
      var t := InsertByDate(x, s[1..]);
      assert InsertByDate(x, s) == [s[0]] + t;
      assert ([s[0]] + t)[1..] == t;
      InsertByDateIsStable(x, s[1..], d);
      assert ([x] + s[1..])[1..] == s[1..];
      assert s == [s[0]] + s[1..];
    }
  }

  /** The sort is stable: for every date, the entries with that date keep
      their relative order. */
  lemma {:induction false} OrderByDateDescendingIsStable(h: seq<RenewResult>, d: int)
    ensures WithDate(OrderByDateDescending(h), d) == WithDate(h, d)
  {
    if h != [] {
      var t := OrderByDateDescending(h[1..]);
      OrderByDateDescendingIsStable(h[1..], d);
      InsertByDateIsStable(h[0], t, d);
      assert ([h[0]] + t)[1..] == t;
    }
  }

  // ---------------------------------------------------------------------
  // The first success after the sort is the reference entry

  lemma {:induction false} FirstSuccessInSorted(s: seq<RenewResult>)
    requires SortedByDateDescending(s)
    requires FirstSuccess(s).Some?
    ensures s != [] && FirstSuccess(s).value.date <= s[0].date
  {
    var e := FirstSuccess(s).value;
    assert e in s;
    var i :| 0 <= i < |s| && s[i] == e;
  }

  /** Inserting `x` into a sorted list changes the first success only when
      `x` succeeded and is not older than the previous first success. */
  lemma {:induction false} InsertByDateFirstSuccess(x: RenewResult, s: seq<RenewResult>)
    requires SortedByDateDescending(s)
    ensures FirstSuccess(InsertByDate(x, s)) ==
              if !x.success then FirstSuccess(s)
              else if FirstSuccess(s).None? || FirstSuccess(s).value.date <= x.date then Some(x)
              else FirstSuccess(s)
    decreases |s|
  {
    assert ([x] + s)[1..] == s;
    if s == [] {
    } else if s[0].date <= x.date {
      if x.success && FirstSuccess(s).Some? {
        FirstSuccessInSorted(s);
      }
    } else {
      var t := InsertByDate(x, s[1..]);
      assert ([s[0]] + t)[1..] == t;
      if !s[0].success {
        InsertByDateFirstSuccess(x, s[1..]);
      }
    }
  }

  /** The entry picked by sort-then-filter is exactly the reference entry:
      none when no attempt succeeded, otherwise `h[LatestIndex(h)]`. */
  lemma {:induction false} SortedFirstSuccessIsLatestIndex(h: seq<RenewResult>)
    ensures LatestIndex(h).None? ==> FirstSuccess(OrderByDateDescending(h)).None?
    ensures LatestIndex(h).Some? ==> FirstSuccess(OrderByDateDescending(h)) == Some(h[LatestIndex(h).value])
  {
    if h != [] {
      var t := h[1..];
      var sorted := OrderByDateDescending(t);
      var first := FirstSuccess(InsertByDate(h[0], sorted));
      assert OrderByDateDescending(h) == InsertByDate(h[0], sorted);
      SortedFirstSuccessIsLatestIndex(t);
      InsertByDateFirstSuccess(h[0], sorted);
      var rest := LatestIndex(t);
      if rest.None? {
        assert FirstSuccess(sorted).None?;
        assert first == if h[0].success then Some(h[0]) else None;
      } else {
        var k := rest.value;
        assert FirstSuccess(sorted) == Some(t[k]);
        assert h[k + 1] == t[k];
      }
    }
  }

  /** At most one index is authoritative. */
  lemma LatestSuccessIsUnique(h: seq<RenewResult>, k1: int, k2: int)
    requires IsLatestSuccess(h, k1) && IsLatestSuccess(h, k2)
    ensures k1 == k2
  {
  }

  // ---------------------------------------------------------------------
  // Failed attempts do not matter

  /** `Where` keeps each success as many times as it occurs and drops every
      failure. */
  lemma {:induction false} SuccessesCounts(s: seq<RenewResult>, x: RenewResult)
    ensures multiset(Successes(s))[x] == if x.success then multiset(s)[x] else 0
  {
    if s != [] {
      assert s == [s[0]] + s[1..];
      SuccessesCounts(s[1..], x);
    }
  }

  /** `Where` keeps a single entry exactly when it succeeded. */
  lemma SuccessesOfSingleton(x: RenewResult)
    ensures Successes([x]) == if x.success then [x] else []
  {
    assert [x][1..] == [];
  }

  /** `Where` keeps list order: it distributes over concatenation. With
      `SuccessesOfSingleton` this fixes the filter on every list. */
  lemma {:induction false} SuccessesOfConcat(a: seq<RenewResult>, b: seq<RenewResult>)
    ensures Successes(a + b) == Successes(a) + Successes(b)
  {
    if a == [] {
      assert a + b == b;
    } else {
      assert (a + b)[0] == a[0];
      assert (a + b)[1..] == a[1..] + b;
      SuccessesOfConcat(a[1..], b);
    }
  }

  /** The sort-then-filter pipeline sees only the successful entries. */
  lemma {:induction false} LatestSuccessIgnoresFailures(h: seq<RenewResult>)
    ensures LatestSuccess(h) == LatestSuccess(Successes(h))
  {
    if h != [] {
      var t := h[1..];
      LatestSuccessIgnoresFailures(t);
      InsertByDateFirstSuccess(h[0], OrderByDateDescending(t));
      if h[0].success {
        var st := Successes(t);
        assert Successes(h) == [h[0]] + st;
        assert ([h[0]] + st)[1..] == st;
        InsertByDateFirstSuccess(h[0], OrderByDateDescending(st));
      }
    }
  }

  /** Two histories with the same successful entries, in the same order,
      yield the same thumbprint, whatever their failed entries. */
  lemma LatestThumbprintIgnoresFailures(h1: seq<RenewResult>, h2: seq<RenewResult>)
    requires Successes(h1) == Successes(h2)
    ensures LatestThumbprint(Some(h1)) == LatestThumbprint(Some(h2))
  {
    LatestSuccessIgnoresFailures(h1);
    LatestSuccessIgnoresFailures(h2);
  }

  /** A failed attempt inserted anywhere, however recent, changes nothing. */
  lemma LatestThumbprintIgnoresFailedAttempt(h: seq<RenewResult>, i: int, f: RenewResult)
    requires 0 <= i <= |h| && !f.success
    ensures LatestThumbprint(Some(h[..i] + [f] + h[i..])) == LatestThumbprint(Some(h))
  {
    var a, b := h[..i], h[i..];
    var g := a + [f] + b;
    assert h == a + b;
    assert Successes([f]) == [] by {
      assert [f][1..] == [];
    }
    SuccessesOfConcat(a + [f], b);
    SuccessesOfConcat(a, [f]);
    SuccessesOfConcat(a, b);
    assert Successes(a + [f]) == Successes(a);
    LatestThumbprintIgnoresFailures(g, h);
  }

  // ---------------------------------------------------------------------
  // Order of the list

  predicate DistinctSuccessDates(h: seq<RenewResult>)
  {
    forall i, j :: 0 <= i < j < |h| && h[i].success && h[j].success ==> h[i].date != h[j].date
  }

  /** When no two successful entries share a date, the list order of the
      history does not matter. */
  lemma LatestThumbprintPermutation(h1: seq<RenewResult>, h2: seq<RenewResult>)
    requires multiset(h1) == multiset(h2)
    requires DistinctSuccessDates(h1)
    ensures LatestThumbprint(Some(h1)) == LatestThumbprint(Some(h2))
  {
    var k1 := LatestIndex(h1);
    var k2 := LatestIndex(h2);
    if k1.Some? {
      var e1 := h1[k1.value];
      assert e1 in multiset(h2);
      var j2 :| 0 <= j2 < |h2| && h2[j2] == e1;
      var e2 := h2[k2.value];
      assert e2 in multiset(h1);
      var j1 :| 0 <= j1 < |h1| && h1[j1] == e2;
      assert e1.date == e2.date;
    }
  }

  /** Of two successes on the same date, the one listed later is never the
      authoritative entry: the stable sort keeps the earlier one in front. */
  lemma LatestIndexTieBreak(h: seq<RenewResult>, i: int, j: int)
    requires 0 <= i < j < |h|
    requires h[i].success && h[j].success && h[i].date == h[j].date
    ensures LatestIndex(h).Some? && LatestIndex(h).value != j
  {
  }
}
