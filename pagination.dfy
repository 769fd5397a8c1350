/**
 * The paginator: the flat label sequence is cut into consecutive pages of
 * `LABELS_PER_PAGE` labels, the last page possibly shorter.
 */
module Pagination {
  import opened Ingest

  /** `labelsPerPage`, the fixed capacity of one sheet. */
  const LABELS_PER_PAGE: nat := 10

  function Min(a: int, b: int): (m: int)
  {
    if a < b then a else b
  }

  /**
   * `s.slice(start, end)` of JavaScript for non-negative arguments: both
   * bounds are clamped to the length, and an end before the start gives [].
   */
  function Slice<T>(s: seq<T>, start: nat, end: nat): (r: seq<T>)
    ensures |r| == if start < end && start < |s| then Min(end, |s|) - start else 0
    ensures forall k :: 0 <= k < |r| ==> r[k] == s[start + k]
  {
    var lo := Min(start, |s|);
    var hi := if end < lo then lo else Min(end, |s|);
    s[lo..hi]
  }

  /**
   * The reference paginator: the first `n` elements form a page, the rest
   * is paginated in turn; a non-empty remainder of at most `n` elements is
   * the last page.
   */
  function Chunk<T>(s: seq<T>, n: nat): (pages: seq<seq<T>>)
    requires n > 0
    decreases |s|
  {
    if s == [] then []
    else if |s| <= n then [s]
    else [s[..n]] + Chunk(s[n..], n)
  }

  /** Every page but the last holds exactly `n` elements; the last holds 1 to `n`. */
  predicate WellPaged<T>(pages: seq<seq<T>>, n: nat)
  {
    (forall k :: 0 <= k < |pages| - 1 ==> |pages[k]| == n) &&
    (pages != [] ==> 1 <= |pages[|pages| - 1]| <= n)
  }

  /** The number of pages needed for `a` elements, `n` to a page: ceil(a / n). */
  function PageCount(a: nat, n: nat): (count: nat)
    requires n > 0
  {
    (a + n - 1) / n
  }

  /** Multiplying by a non-negative factor keeps an inequality. */
  lemma MulMonotone(x: int, y: int, n: nat)
    requires x <= y
    ensures x * n <= y * n
  {
    assert y * n - x * n == (y - x) * n;
  }

  /** A non-zero integer factor scales `n` to at least `n` in size. */
  lemma MulAtLeast(d: int, n: nat)
    ensures d >= 1 ==> d * n >= n
    ensures d <= -1 ==> d * n + n <= 0
  {
    if d >= 1 {
      MulMonotone(1, d, n);
    } else if d <= -1 {
      MulMonotone(d, -1, n);
    }
  }

  /** Integer division is determined by any quotient and in-range remainder. */
  lemma DivUnique(a: int, n: int, q: int, r: int)
    requires n > 0 && 0 <= r < n && a == q * n + r
    ensures a / n == q
  {
    var q', r' := a / n, a % n;
    assert a == q' * n + r';
    assert (q' - q) * n == r - r';
    MulAtLeast(q' - q, n);
  }

  /** One more full page of elements is exactly one more page. */
  lemma PageCountStep(a: nat, n: nat)
    requires n > 0 && a > n
    ensures PageCount(a, n) == 1 + PageCount(a - n, n)
  {
    var x := a - n + n - 1;
    DivUnique(x, n, x / n, x % n);
    DivUnique(x + n, n, x / n + 1, x % n);
  }

  /** The number of pages is ceil(|s| / n), and 0 for the empty sequence. */
  lemma {:induction false} ChunkCount<T>(s: seq<T>, n: nat)
    requires n > 0
    ensures |Chunk(s, n)| == PageCount(|s|, n)
    decreases |s|
  {
    if s == [] {
      DivUnique(n - 1, n, 0, n - 1);
    } else if |s| <= n {
      DivUnique(|s| + n - 1, n, 1, |s| - 1);
    } else {
      ChunkCount(s[n..], n);
      PageCountStep(|s|, n);
    }
  }

  /** Concatenating the pages in order gives back the label sequence. */
  lemma {:induction false} ChunkRoundTrip<T>(s: seq<T>, n: nat)
    requires n > 0
    ensures Flatten(Chunk(s, n)) == s
    decreases |s|
  {
    if s == [] {
    } else if |s| <= n {
      assert [s][1..] == [];
      assert Flatten([s]) == s + Flatten([]);
    } else {
      var rest := Chunk(s[n..], n);
      assert ([s[..n]] + rest)[0] == s[..n];
      assert ([s[..n]] + rest)[1..] == rest;
      ChunkRoundTrip(s[n..], n);
      assert s[..n] + s[n..] == s;
    }
  }

  /** Every page but the last is full, and the last holds between 1 and `n` elements. */
  lemma {:induction false} ChunkShape<T>(s: seq<T>, n: nat)
    requires n > 0
    ensures WellPaged(Chunk(s, n), n)
    decreases |s|
  {
    if |s| > n {
      var rest := Chunk(s[n..], n);
      ChunkShape(s[n..], n);
      assert rest != [];
      var pages := [s[..n]] + rest;
      forall k | 0 <= k < |pages| - 1
        ensures |pages[k]| == n
      {
        if k > 0 {
          assert pages[k] == rest[k - 1];
        }
      }
      assert pages[|pages| - 1] == rest[|rest| - 1];
    }
  }

  /**
   * The pagination is the only one of its shape: any well-paged sequence of
   * pages whose concatenation is `s` is `Chunk(s, n)`.
   */
  lemma {:induction false} ChunkUnique<T>(pages: seq<seq<T>>, s: seq<T>, n: nat)
    requires n > 0
    requires WellPaged(pages, n) && Flatten(pages) == s
    ensures pages == Chunk(s, n)
    decreases |pages|
  {
    if pages == [] {
    } else if |pages| == 1 {
      assert pages[1..] == [];
      assert s == pages[0] + Flatten([]);
      assert s == pages[0] && 1 <= |s| <= n;
      assert pages == [pages[0]];
    } else {
      var rest := pages[1..];
      assert |pages[0]| == n;
      assert rest[0] == pages[1];
      assert 1 <= |rest[0]| by {
        if |pages| == 2 {
        } else {
          assert |pages[1]| == n;
        }
      }
      assert |Flatten(rest)| >= |rest[0]|;
      assert WellPaged(rest, n) by {
        forall k | 0 <= k < |rest| - 1
          ensures |rest[k]| == n
        {
          assert rest[k] == pages[k + 1];
        }
      }
      assert s[..n] == pages[0];
      assert s[n..] == Flatten(rest);
      ChunkUnique(rest, s[n..], n);
    }
  }

  /** Page `k` holds elements [k*n, (k+1)*n) of the sequence, clipped at its end. */
  lemma {:induction false} ChunkAt<T>(s: seq<T>, n: nat, k: nat)
    requires n > 0 && k < |Chunk(s, n)|
    ensures k * n < |s|
    ensures Chunk(s, n)[k] == s[k * n..Min((k + 1) * n, |s|)]
    decreases k
  {
    if k == 0 {
    } else {
      assert |s| > n;
      var rest := Chunk(s[n..], n);
      assert Chunk(s, n)[k] == rest[k - 1];
      ChunkAt(s[n..], n, k - 1);
      assert (k - 1) * n + n == k * n;
      assert k * n + n == (k + 1) * n;
    }
  }

  /**
   * One turn of the paginator loop: the pages of the suffix from `i` are the
   * slice [i, i+n) followed by the pages of the suffix from i+n.
   */
  lemma ChunkStep<T>(s: seq<T>, n: nat, i: nat)
    requires n > 0 && i < |s|
    ensures Chunk(s[i..], n) == [Slice(s, i, i + n)] + Chunk(s[Min(i + n, |s|)..], n)
  {
    if |s| - i <= n {
      assert Min(i + n, |s|) == |s|;
      assert s[i..|s|] == s[i..];
      assert s[|s|..] == [];
    } else {
      assert s[i..][..n] == s[i..i + n];
      assert s[i..][n..] == s[i + n..];
    }
  }

  /**
   * The paginator loop: step through the labels `n` at a time and push each
   * slice onto `pages`.
   */
  method Paginate<T>(labels: seq<T>, n: nat) returns (pages: seq<seq<T>>)
    requires n > 0
    ensures pages == Chunk(labels, n)
  {
    pages := [];
    var i: nat := 0;
    while i < |labels|
      invariant pages + Chunk(labels[Min(i, |labels|)..], n) == Chunk(labels, n)
      decreases |labels| - i
    {
      ChunkStep(labels, n, i);
      assert labels[Min(i, |labels|)..] == labels[i..];
      pages := pages + [Slice(labels, i, i + n)];
      i := i + n;
    }
    assert labels[Min(i, |labels|)..] == [];
  }

  /** The save button is enabled when there is at least one page. */
  predicate SaveEnabled<T>(pages: seq<seq<T>>)
  {
    |pages| != 0
  }

  /** Some page exists exactly when some label exists. */
  lemma SaveEnabledIff<T>(labels: seq<T>, n: nat)
    requires n > 0
    ensures SaveEnabled(Chunk(labels, n)) <==> labels != []
  {
  }

  /** Three labels two to a page make a full page and a page of one. */
  lemma TwoPageScenario()
    ensures Chunk(Flatten([["A", "B"], ["C"]]), 2) == [["A", "B"], ["C"]]
  {
    assert Flatten([["A", "B"], ["C"]]) == ["A", "B", "C"] by {
      assert [["A", "B"], ["C"]][1..] == [["C"]];
      assert [["C"]][1..] == [];
    }
    assert ["A", "B", "C"][2..] == ["C"];
  }
}
