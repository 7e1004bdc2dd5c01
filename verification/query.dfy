/**
 * Paged, newest-first reads against the document store: `find(filter).sort({key: -1})
 * .skip(skip).limit(limit)` with `countDocuments` and `Math.ceil(total / limit)` pages.
 * Every store keeps its documents in insertion order, and the creation key is taken to
 * increase strictly along it, so sorting by that key descending is taken to be reversing
 * the filtered sequence (the key is a millisecond timestamp; ties are not modelled).
 */
module Query {
  import opened Js

  function Min(a: int, b: int): int
  {
    if a <= b then a else b
  }

  /** `Math.ceil(total / limit)`: the fewest pages of `limit` items that hold `total` items. */
  function PageCount(total: nat, limit: nat): (pages: nat)
    requires limit > 0
    ensures total <= pages * limit
    ensures pages == 0 || (pages - 1) * limit < total
  {
    var q := (total + limit - 1) / limit;
    assert q * limit <= total + limit - 1 < (q + 1) * limit;
    q
  }

  /** `.skip(skip).limit(limit)` over an ordered result. */
  function Window<T>(s: seq<T>, skip: nat, limit: nat): (w: seq<T>)
    ensures |w| == if skip >= |s| then 0 else Min(limit, |s| - skip)
    ensures forall k :: 0 <= k < |w| ==> w[k] == s[skip + k]
  {
    if skip >= |s| then [] else s[skip..skip + Min(limit, |s| - skip)]
  }

  /** Every item of an ordered result shows up on page `i / limit + 1`, and that page is
    * among the `PageCount` pages the response announces. */
  lemma PageOfItem<T>(s: seq<T>, limit: nat, i: nat)
    requires limit > 0 && i < |s|
    ensures 1 <= i / limit + 1 <= PageCount(|s|, limit)
    ensures var w := Window(s, (i / limit) * limit, limit);
            i % limit < |w| && w[i % limit] == s[i]
  {
    var p := i / limit;
    var pages := PageCount(|s|, limit);
    assert p * limit + i % limit == i;
    assert p * limit < pages * limit;
    assert p < pages by {
      if p >= pages {
        MulMonotone(p, pages, limit);
      }
    }
  }

  lemma MulMonotone(a: int, b: int, c: nat)
    requires a >= b
    ensures a * c >= b * c
  {
  }

  /** `parseInt((req.query.page as string) || '1', 10)`. */
  function PageParam(query: Option<string>): Option<int>
  {
    ParseInt(OrStr(query, "1"))
  }

  /** Omitting the page query means page 1. */
  lemma PageParamDefault()
    ensures PageParam(None) == Some(1)
    ensures PageParam(Some("")) == Some(1)
  {
    assert OrStr(None, "1") == "1" && OrStr(Some(""), "1") == "1";
    ParseIntOne();
  }

  /** A page number written out is read back as itself. */
  lemma PageParamOfPage(p: nat)
    ensures PageParam(Some(IntToString(p))) == Some(p)
  {
    var s := IntToString(p);
    assert s == NatToString(p) && s != [];
    assert OrStr(Some(s), "1") == s;
    ParseIntOfNat(p);
  }

  /** The offset `(page - 1) * limit` handed to the store; the store refuses a
    * non-numeric (NaN) or negative offset, reported as an error without status code. */
  function Skip(page: Option<int>, limit: nat): (r: Outcome<nat>)
    ensures r.Ok? <==> page.Some? && (page.value >= 1 || limit == 0)
    ensures r.Ok? ==> r.value == (page.value - 1) * limit
    ensures r.Throw? ==> r.error.statusCode == None
  {
    if page.None? || (page.value < 1 && limit != 0) then
      Throw(StoreError("skip must be a non-negative number"))
    else
      var skip := (page.value - 1) * limit;
      assert skip >= 0 by {
        if limit != 0 { MulMonotone(page.value - 1, 0, limit); }
      }
      Ok(skip)
  }

  /** The `pagination` object of a paged response. */
  datatype Pagination = Pagination(total: nat, page: int, limit: nat, pages: nat)

  /** A page of results with its pagination. */
  datatype Page<T> = Page(data: seq<T>, pagination: Pagination)

  // ---------------------------------------------------------------- ordering

  /** `find(filter)` in store order. */
  function Filter<T>(s: seq<T>, keep: T -> bool): (r: seq<T>)
    ensures |r| <= |s|
    ensures forall k :: 0 <= k < |r| ==> keep(r[k])
    ensures forall k :: 0 <= k < |s| && keep(s[k]) ==> s[k] in r
  {
    if s == [] then []
    else if keep(s[0]) then [s[0]] + Filter(s[1..], keep)
    else Filter(s[1..], keep)
  }

  /** What a filter keeps comes from the original, no more often than there. */
  lemma {:induction false} FilterSubMultiset<T>(s: seq<T>, keep: T -> bool)
    ensures multiset(Filter(s, keep)) <= multiset(s)
    ensures forall k :: 0 <= k < |Filter(s, keep)| ==> Filter(s, keep)[k] in s
  {
    if s != [] {
      var t := s[1..];
      var r := Filter(s, keep);
      FilterSubMultiset(t, keep);
      assert s == [s[0]] + t;
      if keep(s[0]) {
        assert r == [s[0]] + Filter(t, keep);
      } else {
        assert r == Filter(t, keep);
      }
      assert multiset(r) <= multiset(s);
      forall k | 0 <= k < |r|
        ensures r[k] in s
      {
        assert r[k] in multiset(r);
      }
    }
  }

  /** Every position moved one place on. */
  function Shift(ix: seq<nat>): (r: seq<nat>)
    ensures |r| == |ix|
    ensures forall k :: 0 <= k < |ix| ==> r[k] == ix[k] + 1
  {
    if ix == [] then [] else [ix[0] + 1] + Shift(ix[1..])
  }

  /** The positions of `s` whose element `keep` accepts, in increasing order. */
  function KeptPositions<T>(s: seq<T>, keep: T -> bool): (ix: seq<nat>)
    ensures forall k :: 0 <= k < |ix| ==> ix[k] < |s| && keep(s[ix[k]])
  {
    if s == [] then []
    else if keep(s[0]) then [0] + Shift(KeptPositions(s[1..], keep))
    else Shift(KeptPositions(s[1..], keep))
  }

  /** The filter's result is the original read at the kept positions. */
  lemma {:induction false} FilterAtKeptPositions<T>(s: seq<T>, keep: T -> bool)
    ensures var ix := KeptPositions(s, keep);
            |ix| == |Filter(s, keep)| && forall k :: 0 <= k < |ix| ==> Filter(s, keep)[k] == s[ix[k]]
  {
    if s != [] {
      var t := s[1..];
      FilterAtKeptPositions(t, keep);
      var rest := KeptPositions(t, keep);
      var shifted := Shift(rest);
      forall k | 0 <= k < |shifted|
        ensures s[shifted[k]] == Filter(t, keep)[k]
      {
        assert s[shifted[k]] == t[rest[k]];
      }
      if keep(s[0]) {
        var ix := [0] + shifted;
        var f := [s[0]] + Filter(t, keep);
        forall k | 0 < k < |ix|
          ensures f[k] == s[ix[k]]
        {
          assert f[k] == Filter(t, keep)[k - 1] && ix[k] == shifted[k - 1];
        }
      }
    }
  }

  /** Positions listed in strictly increasing order. */
  predicate Ascending(ix: seq<nat>)
  {
    forall i, j :: 0 <= i < j < |ix| ==> ix[i] < ix[j]
  }

  /** Moving every position one place on keeps them ascending. */
  lemma ShiftAscending(ix: seq<nat>)
    requires Ascending(ix)
    ensures Ascending(Shift(ix)) && Ascending([0] + Shift(ix))
  {
    var sh := Shift(ix);
    forall i, j | 0 <= i < j < |sh|
      ensures sh[i] < sh[j]
    {
      assert ix[i] < ix[j];
    }
    var z := [0] + sh;
    forall i, j | 0 <= i < j < |z|
      ensures z[i] < z[j]
    {
      assert z[j] == sh[j - 1];
      if i > 0 {
        assert z[i] == sh[i - 1];
      }
    }
  }

  /** The kept positions strictly increase. */
  lemma {:induction false} KeptPositionsAscending<T>(s: seq<T>, keep: T -> bool)
    ensures Ascending(KeptPositions(s, keep))
  {
    if s != [] {
      KeptPositionsAscending(s[1..], keep);
      ShiftAscending(KeptPositions(s[1..], keep));
    }
  }

  /** A listed position, moved on, is listed after the shift. */
  lemma ShiftMember(ix: seq<nat>, q: nat)
    requires q in ix
    ensures q + 1 in Shift(ix) && q + 1 in [0] + Shift(ix)
  {
    var m :| 0 <= m < |ix| && ix[m] == q;
    assert Shift(ix)[m] == q + 1;
    assert ([0] + Shift(ix))[m + 1] == q + 1;
  }

  /** No position whose element is kept is missed. */
  lemma {:induction false} KeptPositionsComplete<T>(s: seq<T>, keep: T -> bool, p: nat)
    requires p < |s| && keep(s[p])
    ensures p in KeptPositions(s, keep)
  {
    var t := s[1..];
    if p == 0 {
      assert KeptPositions(s, keep) == [0] + Shift(KeptPositions(t, keep));
    } else {
      assert t[p - 1] == s[p];
      KeptPositionsComplete(t, keep, p - 1);
      ShiftMember(KeptPositions(t, keep), p - 1);
    }
  }

  /** A filter is the original read at the kept positions, in increasing order and with
    * none missed: it keeps the store order and every occurrence of a match. */
  lemma FilterOrder<T>(s: seq<T>, keep: T -> bool)
    ensures var ix := KeptPositions(s, keep);
            |ix| == |Filter(s, keep)|
            && (forall k :: 0 <= k < |ix| ==> Filter(s, keep)[k] == s[ix[k]])
            && Ascending(ix)
            && (forall p :: 0 <= p < |s| && keep(s[p]) ==> p in ix)
  {
    FilterAtKeptPositions(s, keep);
    KeptPositionsAscending(s, keep);
    forall p | 0 <= p < |s| && keep(s[p])
      ensures p in KeptPositions(s, keep)
    {
      KeptPositionsComplete(s, keep, p);
    }
  }

  function Reverse<T>(s: seq<T>): (r: seq<T>)
    ensures |r| == |s|
    ensures forall k :: 0 <= k < |s| ==> r[k] == s[|s| - 1 - k]
  {
    if s == [] then [] else Reverse(s[1..]) + [s[0]]
  }

  /** Creation keys strictly increase along the store. */
  ghost predicate Increasing<T>(s: seq<T>, key: T -> int)
  {
    forall i, j :: 0 <= i < j < |s| ==> key(s[i]) < key(s[j])
  }

  /** Keys strictly decrease: newest first. */
  ghost predicate Decreasing<T>(s: seq<T>, key: T -> int)
  {
    forall i, j :: 0 <= i < j < |s| ==> key(s[i]) > key(s[j])
  }

  /** A relation that holds between every earlier and later element. */
  ghost predicate Pairwise<T>(s: seq<T>, rel: (T, T) -> bool)
  {
    forall i, j :: 0 <= i < j < |s| ==> rel(s[i], s[j])
  }

  /** Filtering keeps the relative order of what it keeps, so every pairwise property survives. */
  lemma {:induction false} FilterPairwise<T>(s: seq<T>, keep: T -> bool, rel: (T, T) -> bool)
    requires Pairwise(s, rel)
    ensures Pairwise(Filter(s, keep), rel)
  {
    if s != [] {
      FilterPairwise(s[1..], keep, rel);
      var r := Filter(s, keep);
      if keep(s[0]) {
        forall j | 0 < j < |r|
          ensures rel(r[0], r[j])
        {
          assert r[j] in Filter(s[1..], keep);
          FilterSubMultiset(s[1..], keep);
          var m :| 0 <= m < |s[1..]| && s[1..][m] == r[j];
          assert s[1 + m] == r[j];
        }
      }
    }
  }

  /** Filtering keeps the store order. */
  lemma FilterIncreasing<T>(s: seq<T>, keep: T -> bool, key: T -> int)
    requires Increasing(s, key)
    ensures Increasing(Filter(s, keep), key)
  {
    FilterPairwise(s, keep, (a, b) => key(a) < key(b));
  }

  /** A filter that keeps everything changes nothing. */
  lemma {:induction false} FilterKeepsAll<T>(s: seq<T>, keep: T -> bool)
    requires forall k :: 0 <= k < |s| ==> keep(s[k])
    ensures Filter(s, keep) == s
  {
    if s != [] {
      FilterKeepsAll(s[1..], keep);
    }
  }

  /** Filtering a sequence extended by one element. */
  lemma {:induction false} FilterAppend<T>(s: seq<T>, x: T, keep: T -> bool)
    ensures Filter(s + [x], keep) == Filter(s, keep) + (if keep(x) then [x] else [])
  {
    if s != [] {
      FilterAppend(s[1..], x, keep);
      assert (s + [x])[1..] == s[1..] + [x];
    } else {
      assert [x][1..] == [];
    }
  }

  /** Every element is either kept or dropped: a filter and its complement share out the
    * whole sequence. */
  lemma {:induction false} FilterComplement<T>(s: seq<T>, keep: T -> bool, drop: T -> bool)
    requires forall x :: drop(x) == !keep(x)
    ensures |Filter(s, keep)| + |Filter(s, drop)| == |s|
  {
    if s != [] {
      FilterComplement(s[1..], keep, drop);
    }
  }

  /** `sort({key: -1})` of a filtered store: the filtered documents, newest first. */
  function NewestFirst<T>(s: seq<T>, keep: T -> bool): seq<T>
  {
    Reverse(Filter(s, keep))
  }

  /** The sorted result is exactly the matching documents, in strictly decreasing key order. */
  lemma NewestFirstSorted<T>(s: seq<T>, keep: T -> bool, key: T -> int)
    requires Increasing(s, key)
    ensures Decreasing(NewestFirst(s, keep), key)
    ensures forall k :: 0 <= k < |NewestFirst(s, keep)| ==> keep(NewestFirst(s, keep)[k])
    ensures forall k :: 0 <= k < |s| && keep(s[k]) ==> s[k] in NewestFirst(s, keep)
  {
    FilterIncreasing(s, keep, key);
    var f := Filter(s, keep);
    var r := NewestFirst(s, keep);
    forall k | 0 <= k < |s| && keep(s[k])
      ensures s[k] in r
    {
      var m :| 0 <= m < |f| && f[m] == s[k];
      assert r[|f| - 1 - m] == s[k];
    }
  }

  /** Every element of a page of a newest-first result is a stored element that matches. */
  lemma NewestFirstWindow<T>(s: seq<T>, keep: T -> bool, skip: nat, limit: nat)
    ensures var w := Window(NewestFirst(s, keep), skip, limit);
            forall k :: 0 <= k < |w| ==> w[k] in s && keep(w[k])
  {
    var f := Filter(s, keep);
    var r := NewestFirst(s, keep);
    FilterSubMultiset(s, keep);
    var w := Window(r, skip, limit);
    forall k | 0 <= k < |w|
      ensures w[k] in s && keep(w[k])
    {
      assert w[k] == r[skip + k] == f[|f| - 1 - (skip + k)];
    }
  }

  /** A page of a newest-first result is itself newest first. */
  lemma WindowKeepsDecreasing<T>(s: seq<T>, skip: nat, limit: nat, key: T -> int)
    requires Decreasing(s, key)
    ensures Decreasing(Window(s, skip, limit), key)
  {
    var w := Window(s, skip, limit);
    forall i, j | 0 <= i < j < |w|
      ensures key(w[i]) > key(w[j])
    {
      assert w[i] == s[skip + i] && w[j] == s[skip + j];
    }
  }
}
