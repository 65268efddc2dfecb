/**
 The ordering stage of `MaxFeeTxHandler.handleTxs`: `SortTx` pairs a
 transaction with its fee, `Collections.sort` orders the list ascending
 under `compareTo` and is stable, and the result is read back to front.

 The sort is specified by what `Collections.sort` promises (a stable
 ascending permutation) and implemented by insertion; `StableSortUnique`
 shows that those promises leave only one possible output, so any stable
 sort, this one included, returns what the library returns.
 */
module FeeSort {
  import opened Ledger

  /** `SortTx`: a transaction with the fee recorded when it was accepted. */
  datatype Ranked = Ranked(tx: Tx, fee: int)

  /** `SortTx.compareTo`: the sign of the fee difference. */
  function CompareTo(a: Ranked, b: Ranked): (c: int)
    ensures -1 <= c <= 1
    ensures c < 0 <==> a.fee < b.fee
    ensures c > 0 <==> a.fee > b.fee
  {
    var d := a.fee - b.fee;
    if d > 0 then 1 else if d < 0 then -1 else 0
  }

  /** Ordered as `Collections.sort` leaves a list: no element compares
      greater than a later one. */
  predicate Ascending(s: seq<Ranked>)
  {
    forall i, j :: 0 <= i < j < |s| ==> CompareTo(s[i], s[j]) <= 0
  }

  predicate NonIncreasing(s: seq<Ranked>)
  {
    forall i, j :: 0 <= i < j < |s| ==> s[i].fee >= s[j].fee
  }

  /** The elements of `s` whose fee is `f`, in their order in `s`. A sort
      is stable when it keeps every such list unchanged. */
  function WithFee(s: seq<Ranked>, f: int): seq<Ranked>
  {
    if |s| == 0 then [] else (if s[0].fee == f then [s[0]] else []) + WithFee(s[1..], f)
  }

  /** The transactions of a ranked list, in order. */
  function Txs(s: seq<Ranked>): (r: seq<Tx>)
    ensures |r| == |s|
    ensures forall i :: 0 <= i < |s| ==> r[i] == s[i].tx
  {
    if |s| == 0 then [] else [s[0].tx] + Txs(s[1..])
  }

  function Reverse<T>(s: seq<T>): (r: seq<T>)
    ensures |r| == |s|
    ensures forall i :: 0 <= i < |s| ==> r[i] == s[|s| - 1 - i]
  {
    seq(|s|, i requires 0 <= i < |s| => s[|s| - 1 - i])
  }

  // ---------------------------------------------------------------------
  // A stable insertion sort
  // ---------------------------------------------------------------------

  /** No fee in `s` is below `b`. */
  predicate LowerBound(b: int, s: seq<Ranked>)
  {
    forall i :: 0 <= i < |s| ==> b <= s[i].fee
  }

  lemma AscendingCons(h: Ranked, t: seq<Ranked>)
    requires Ascending(t) && LowerBound(h.fee, t)
    ensures Ascending([h] + t)
  {
    var s := [h] + t;
    forall i, j | 0 <= i < j < |s|
      ensures CompareTo(s[i], s[j]) <= 0
    {
      if i > 0 {
        assert s[i] == t[i - 1] && s[j] == t[j - 1];
      }
    }
  }

  /** Inserts `x` before the first element that does not compare less
      than it, so `x` precedes the elements of equal fee already there. */
  function Insert(x: Ranked, s: seq<Ranked>): (r: seq<Ranked>)
    requires Ascending(s)
    ensures Ascending(r)
    ensures multiset(r) == multiset(s) + multiset{x}
    decreases |s|, 1
  {
    if |s| == 0 || CompareTo(x, s[0]) <= 0 then
      AscendingCons(x, s);
      [x] + s
    else
      var rest := Insert(x, s[1..]);
      assert s == [s[0]] + s[1..];
      assert LowerBound(s[0].fee, s[1..]);
      InsertLowerBound(x, s[1..], s[0].fee);
      AscendingCons(s[0], rest);
      assert multiset([s[0]] + rest) == multiset{s[0]} + multiset(rest);
      [s[0]] + rest
  }

  /** A bound below every fee of `s` and below `x`'s fee stays below every
      fee after inserting `x`. */
  lemma {:induction false} InsertLowerBound(x: Ranked, s: seq<Ranked>, b: int)
    requires Ascending(s) && LowerBound(b, s) && b <= x.fee
    ensures LowerBound(b, Insert(x, s))
    decreases |s|, 2
  {
    if |s| > 0 && CompareTo(x, s[0]) > 0 {
      assert LowerBound(b, s[1..]);
      InsertLowerBound(x, s[1..], b);
    }
  }

  /** Inserting `x` adds it in front of the elements of equal fee and
      leaves the order of every other fee alone. */
  lemma {:induction false} InsertStable(x: Ranked, s: seq<Ranked>)
    requires Ascending(s)
    ensures forall f :: WithFee(Insert(x, s), f) == (if x.fee == f then [x] else []) + WithFee(s, f)
  {
    if |s| == 0 || CompareTo(x, s[0]) <= 0 {
      assert ([x] + s)[1..] == s;
    } else {
      var rest := Insert(x, s[1..]);
      InsertStable(x, s[1..]);
      assert ([s[0]] + rest)[1..] == rest;
    }
  }

  lemma {:induction false} InsertTxs(x: Ranked, s: seq<Ranked>)
    requires Ascending(s)
    ensures multiset(Txs(Insert(x, s))) == multiset(Txs(s)) + multiset{x.tx}
  {
    if |s| == 0 || CompareTo(x, s[0]) <= 0 {
      assert ([x] + s)[1..] == s;
    } else {
      var rest := Insert(x, s[1..]);
      InsertTxs(x, s[1..]);
      assert ([s[0]] + rest)[1..] == rest;
    }
  }

  /** `Collections.sort` over the accepted list, ascending by fee: an
      ascending, stable permutation. */
  function SortByFee(s: seq<Ranked>): (r: seq<Ranked>)
    ensures Ascending(r)
    ensures multiset(r) == multiset(s)
    ensures forall f :: WithFee(r, f) == WithFee(s, f)
  {
    if |s| == 0 then []
    else
      var rest := SortByFee(s[1..]);
      assert s == [s[0]] + s[1..];
      InsertStable(s[0], rest);
      Insert(s[0], rest)
  }

  /** Sorting keeps the transactions, each as often as before. */
  lemma {:induction false} SortKeepsTxs(s: seq<Ranked>)
    ensures multiset(Txs(SortByFee(s))) == multiset(Txs(s))
  {
    if |s| > 0 {
      var rest := SortByFee(s[1..]);
      SortKeepsTxs(s[1..]);
      InsertTxs(s[0], rest);
      assert Txs(s) == [s[0].tx] + Txs(s[1..]);
    }
  }

  // ---------------------------------------------------------------------
  // A stable ascending order is unique
  // ---------------------------------------------------------------------

  lemma {:induction false} WithFeeMembers(s: seq<Ranked>, f: int)
    ensures forall e :: e in WithFee(s, f) <==> e in s && e.fee == f
  {
    if |s| > 0 {
      WithFeeMembers(s[1..], f);
      assert s == [s[0]] + s[1..];
    }
  }

  /** Two ascending lists that agree on the elements of every fee, in
      order, are the same list. */
  lemma {:induction false} StableSortUnique(a: seq<Ranked>, b: seq<Ranked>)
    requires Ascending(a) && Ascending(b)
    requires forall f :: WithFee(a, f) == WithFee(b, f)
    ensures a == b
    decreases |a|
  {
    if |a| == 0 || |b| == 0 {
      var c := if |a| > 0 then a else b;
      if |c| > 0 {
        assert WithFee(a, c[0].fee) != WithFee(b, c[0].fee);
      }
    } else {
      WithFeeMembers(a, b[0].fee);
      WithFeeMembers(b, a[0].fee);
      assert b[0] in WithFee(b, b[0].fee);
      assert a[0] in WithFee(a, a[0].fee);
      assert a[0].fee == b[0].fee;
      assert WithFee(a, a[0].fee)[0] == a[0];
      assert WithFee(b, b[0].fee)[0] == b[0];
      assert WithFee(a, a[0].fee) == WithFee(b, a[0].fee);
      assert a[0] == b[0];
      forall f
        ensures WithFee(a[1..], f) == WithFee(b[1..], f)
      {
        var h := if a[0].fee == f then [a[0]] else [];
        assert WithFee(a, f) == h + WithFee(a[1..], f);
        assert WithFee(b, f) == h + WithFee(b[1..], f);
        assert WithFee(a, f) == WithFee(b, f);
        assert (h + WithFee(a[1..], f))[|h|..] == WithFee(a[1..], f);
        assert (h + WithFee(b[1..], f))[|h|..] == WithFee(b[1..], f);
      }
      StableSortUnique(a[1..], b[1..]);
      assert a == [a[0]] + a[1..];
      assert b == [b[0]] + b[1..];
    }
  }

  // ---------------------------------------------------------------------
  // Reading the sorted list back to front
  // ---------------------------------------------------------------------

  lemma {:induction false} MultisetReverse<T>(s: seq<T>)
    ensures multiset(Reverse(s)) == multiset(s)
  {
    if |s| > 0 {
      MultisetReverse(s[1..]);
      assert Reverse(s) == Reverse(s[1..]) + [s[0]];
      assert s == [s[0]] + s[1..];
    }
  }

  lemma {:induction false} WithFeeConcat(a: seq<Ranked>, b: seq<Ranked>, f: int)
    ensures WithFee(a + b, f) == WithFee(a, f) + WithFee(b, f)
  {
    if |a| == 0 {
      assert a + b == b;
    } else {
      WithFeeConcat(a[1..], b, f);
      assert (a + b)[0] == a[0];
      assert (a + b)[1..] == a[1..] + b;
      var h := if a[0].fee == f then [a[0]] else [];
      assert WithFee(a + b, f) == h + WithFee(a[1..] + b, f);
      assert WithFee(a, f) == h + WithFee(a[1..], f);
      assert h + (WithFee(a[1..], f) + WithFee(b, f)) == (h + WithFee(a[1..], f)) + WithFee(b, f);
    }
  }

  lemma ReverseConcat<T>(a: seq<T>, b: seq<T>)
    ensures Reverse(a + b) == Reverse(b) + Reverse(a)
  {
  }

  lemma ReverseUncons<T>(s: seq<T>)
    requires |s| > 0
    ensures Reverse(s) == Reverse(s[1..]) + [s[0]]
  {
  }

  /** Reading back to front reverses the order among equal fees. */
  lemma {:induction false} WithFeeReverse(s: seq<Ranked>, f: int)
    ensures WithFee(Reverse(s), f) == Reverse(WithFee(s, f))
  {
    if |s| > 0 {
      var head, tail := if s[0].fee == f then [s[0]] else [], WithFee(s[1..], f);
      calc {
        WithFee(Reverse(s), f);
      == { ReverseUncons(s); }
        WithFee(Reverse(s[1..]) + [s[0]], f);
      == { WithFeeConcat(Reverse(s[1..]), [s[0]], f); }
        WithFee(Reverse(s[1..]), f) + WithFee([s[0]], f);
      == { WithFeeReverse(s[1..], f);
           assert WithFee([s[0]], f) == head;
           assert Reverse(head) == head; }
        Reverse(tail) + Reverse(head);
      == { ReverseConcat(head, tail); }
        Reverse(head + tail);
      }
    }
  }

  /** Reading an ascending list back to front gives non-increasing fees. */
  lemma ReverseOfAscending(s: seq<Ranked>)
    requires Ascending(s)
    ensures NonIncreasing(Reverse(s))
  {
    var r := Reverse(s);
    forall i, j | 0 <= i < j < |r|
      ensures r[i].fee >= r[j].fee
    {
      assert CompareTo(s[|s| - 1 - j], s[|s| - 1 - i]) <= 0;
    }
  }
}
