/**
 Pages of a query (mongo/repository.go:52-74, 378-394) over an unchanged
 collection: `docs` is what the filter selects, in the order of a total sort.
 */
module Paging {
  import opened Wrappers

  const MAX_INT64 := 0x7fff_ffff_ffff_ffff

  type Int64 = n: int | -MAX_INT64 - 1 <= n <= MAX_INT64

  // The 64-bit product: what is left of a number after wrap-around.
  function Wrap64(n: int): Int64 {
    (n + MAX_INT64 + 1) % (2 * (MAX_INT64 + 1)) - MAX_INT64 - 1
  }

  // Wrapping changes a number by a multiple of 2^64, and not at all when it fits.
  lemma WrapExactly(n: int)
    ensures (Wrap64(n) - n) % 0x1_0000_0000_0000_0000 == 0
    ensures -0x8000_0000_0000_0000 <= Wrap64(n) < 0x8000_0000_0000_0000
    ensures Wrap64(n) == n <==> -0x8000_0000_0000_0000 <= n < 0x8000_0000_0000_0000
  {
  }

  // The driver's find options; an absent one has no effect.
  datatype FindOptions = FindOptions(skip: Option<Int64>, limit: Option<Int64>)

  function Min(a: int, b: int): int {
    if a <= b then a else b
  }

  // The driver's find, for a positive skip and limit.
  function RunFind<T>(docs: seq<T>, opts: FindOptions): seq<T> {
    var rest := if opts.skip.Some? && opts.skip.value > 0 then docs[Min(opts.skip.value, |docs|)..] else docs;
    if opts.limit.Some? && opts.limit.value > 0 then rest[..Min(opts.limit.value, |rest|)] else rest
  }

  // Plain dropping and taking; a limit of nought or less takes everything.
  function DropTake<T>(docs: seq<T>, skip: int, limit: int): seq<T> {
    var rest := if skip <= 0 then docs else docs[Min(skip, |docs|)..];
    if limit <= 0 then rest else rest[..Min(limit, |rest|)]
  }

  // Place by place: what follows the first `skip` documents, up to `limit` of them.
  lemma DropTakeExactly<T>(docs: seq<T>, skip: int, limit: int)
    ensures var from := if skip <= 0 then 0 else if skip <= |docs| then skip else |docs|;
            var left := |docs| - from;
            var found := DropTake(docs, skip, limit);
            && |found| == (if 0 < limit < left then limit else left)
            && forall i :: 0 <= i < |found| ==> found[i] == docs[from + i]
  {
  }

  method FindCursor<T>(docs: seq<T>, skip: Int64, limit: Int64) returns (cursor: seq<T>)
    ensures cursor == DropTake(docs, skip, limit)
  {
    var opts := FindOptions(None, None);
    if skip > 0 {
      opts := opts.(skip := Some(skip));
    }
    if limit > 0 {
      opts := opts.(limit := Some(limit));
    }
    cursor := RunFind(docs, opts);
  }

  method Find<T>(docs: seq<T>) returns (all: seq<T>)
    ensures all == docs
  {
    all := FindCursor(docs, 0, 0);
  }

  function PageNumber(page: Int64): Int64 {
    if page < 1 then 1 else page
  }

  function PageSize(size: Int64): Int64 {
    if size < 1 then 20 else size
  }

  function Found<T>(docs: seq<T>, page: Int64, size: Int64): seq<T> {
    DropTake(docs, Wrap64((PageNumber(page) - 1) * PageSize(size)), PageSize(size))
  }

  method FindPaging<T>(docs: seq<T>, page: Int64, size: Int64) returns (models: seq<T>)
    ensures models == Found(docs, page, size)
  {
    var page: int, size: int := page, size;
    if page < 1 {
      page := 1;
    }
    if size < 1 {
      size := 20;
    }
    models := FindCursor(docs, Wrap64((page - 1) * size), size);
  }

  lemma NonNegative(a: int, b: int)
    requires a >= 0 && b >= 0
    ensures a * b >= 0
  {
  }

  lemma StepUp(page: int, size: int)
    ensures page * size == (page - 1) * size + size
  {
  }

  // The page a caller means: documents (page-1)*size up to page*size.
  function Page<T>(docs: seq<T>, page: int, size: int): seq<T>
    requires page >= 1 && size >= 1
  {
    NonNegative(page - 1, size);
    NonNegative(page, size);
    StepUp(page, size);
    docs[Min((page - 1) * size, |docs|)..Min(page * size, |docs|)]
  }

  lemma WrapWithin(n: int)
    requires -MAX_INT64 - 1 <= n <= MAX_INT64
    ensures Wrap64(n) == n
  {
  }

  // The product that the page number and size ask to skip.
  function Skipped(page: Int64, size: Int64): (n: int)
    ensures n >= 0
  {
    NonNegative(PageNumber(page) - 1, PageSize(size));
    (PageNumber(page) - 1) * PageSize(size)
  }

  lemma FoundWithin<T>(docs: seq<T>, skip: int, size: int)
    requires skip >= 0 && size >= 1
    ensures DropTake(docs, skip, size) == docs[Min(skip, |docs|)..Min(skip + size, |docs|)]
  {
  }

  // A page is the one meant, a page below 1 being the first and a size below 1
  // being 20, exactly when the product of what is skipped fits in 64 bits, or
  // wraps round to a number past the end, or nothing is there at all.
  lemma PageExactly<T>(docs: seq<T>, page: Int64, size: Int64)
    requires |docs| <= MAX_INT64
    ensures var p := if page < 1 then 1 else page;
            var n := if size < 1 then 20 else size;
            Found(docs, page, size) == Page(docs, p, n)
            <==> (p - 1) * n < 0x8000_0000_0000_0000 || Wrap64((p - 1) * n) >= |docs| || docs == []
  {
    var p, s, skip := PageNumber(page), PageSize(size), Skipped(page, size);
    StepUp(p, s);
    if skip <= MAX_INT64 {
      WrapWithin(skip);
      FoundWithin(docs, skip, s);
    } else {
      assert Page(docs, p, s) == [];
      var wrapped := Wrap64(skip);
      assert |DropTake(docs, wrapped, s)| == 0 <==> wrapped >= |docs| || docs == [];
    }
  }

  // An overflowing page number brings the first page back.
  lemma OverflowWraps()
    ensures var docs := [7];
            && Found(docs, 0x4000_0000_0000_0001, 4) == docs
            && Page(docs, 0x4000_0000_0000_0001, 4) == []
  {
    assert Wrap64(0x4000_0000_0000_0000 * 4) == 0;
  }

  lemma PastTheEnd<T>(docs: seq<T>, page: Int64, size: Int64)
    requires |docs| <= Skipped(page, size) <= MAX_INT64
    ensures Found(docs, page, size) == []
  {
    PageExactly(docs, page, size);
    StepUp(PageNumber(page), PageSize(size));
  }

  // Pages 1 to n as FindPaging returns them, one after the other.
  function Pages<T>(docs: seq<T>, n: nat, size: Int64): seq<T>
    requires n <= MAX_INT64
  {
    if n == 0 then [] else Pages(docs, n - 1, size) + Found(docs, n, size)
  }

  lemma PageWithin<T>(docs: seq<T>, n: int, size: Int64)
    requires |docs| <= MAX_INT64 && 1 <= n <= MAX_INT64
    requires 0 <= (n - 1) * PageSize(size) <= MAX_INT64
    ensures var first := (n - 1) * PageSize(size);
            Found(docs, n, size) == docs[Min(first, |docs|)..Min(first + PageSize(size), |docs|)]
  {
    WrapWithin((n - 1) * PageSize(size));
    FoundWithin(docs, (n - 1) * PageSize(size), PageSize(size));
  }

  lemma Joined<T>(docs: seq<T>, a: int, b: int)
    requires 0 <= a <= b <= |docs|
    ensures docs[..a] + docs[a..b] == docs[..b]
  {
  }

  lemma {:induction false} PagesCover<T>(docs: seq<T>, n: nat, size: Int64)
    requires |docs| <= MAX_INT64 && n <= MAX_INT64
    requires n > 0 ==> (n - 1) * PageSize(size) <= MAX_INT64
    ensures n * PageSize(size) >= 0 && Pages(docs, n, size) == docs[..Min(n * PageSize(size), |docs|)]
  {
    NonNegative(n, PageSize(size));
    if n > 0 {
      NonNegative(n - 1, PageSize(size));
      StepUp(n, PageSize(size));
      StepUp(n - 1, PageSize(size));
      PagesCover(docs, n - 1, size);
      PageWithin(docs, n, size);
      Joined(docs, Min((n - 1) * PageSize(size), |docs|), Min(n * PageSize(size), |docs|));
    }
  }

  function PageCount(total: nat, size: Int64): nat {
    (total + PageSize(size) - 1) / PageSize(size)
  }

  lemma AtLeast(a: int, b: int)
    requires a >= 0 && b >= 1
    ensures a * b >= a
  {
  }

  lemma CeilBounds(total: nat, size: int)
    requires size >= 1
    ensures var n := (total + size - 1) / size;
            n * size >= total && n <= total && (n > 0 ==> (n - 1) * size < total)
  {
    var n := (total + size - 1) / size;
    assert n * size + (total + size - 1) % size == total + size - 1;
    StepUp(n, size);
    if n > 0 {
      AtLeast(n - 1, size);
    }
  }

  // Pages 1 to ceil(total/size), put together, are the whole result of Find:
  // every document once, in order; a size below 1 counts as 20. No overflow can
  // occur on the way.
  lemma PagesTile<T>(docs: seq<T>, size: Int64)
    requires |docs| <= MAX_INT64
    ensures PageCount(|docs|, size) <= MAX_INT64
    ensures Pages(docs, PageCount(|docs|, size), size) == docs
  {
    var n := PageCount(|docs|, size);
    CeilBounds(|docs|, PageSize(size));
    PagesCover(docs, n, size);
    assert docs[..|docs|] == docs;
  }
}
