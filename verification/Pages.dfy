/**
 The page index of a list: GetPages and GetPageInfo of pagination_helpers.go, and how it fits the pages that
 are fetched with its cursors.
 */
module Pages {
  import opened Common
  import opened Cursor
  import opened Pagination

  datatype PageEntry<T> = PageEntry(after: T, isCurrent: bool, count: nat, number: nat)

  datatype PageInfo<T> = PageInfo(hasNextPage: bool, hasPreviousPage: bool, isValidPage: bool, pageNumber: Option<nat>,
                                  nextPageAfter: T, pages: seq<PageEntry<T>>)

  function Min(a: nat, b: nat): nat {
    if a < b then a else b
  }

  predicate NonEmpty<T>(chunks: seq<seq<T>>) {
    forall k :: 0 <= k < |chunks| ==> chunks[k] != []
  }

  predicate Full<T>(chunks: seq<seq<T>>, size: nat) {
    forall k :: 0 <= k < |chunks| ==> |chunks[k]| == size
  }

  /** The list cut into runs of `size`, the last of which may be shorter. */
  function Chunks<T>(xs: seq<T>, size: nat): (chunks: seq<seq<T>>)
    requires size > 0
    ensures NonEmpty(chunks)
    decreases |xs|
  {
    if xs == [] then [] else [xs[..Min(size, |xs|)]] + Chunks(xs[Min(size, |xs|)..], size)
  }

  function EntryOf<T(==)>(first: T, chunk: seq<T>, number: nat): PageEntry<T>
    requires chunk != []
  {
    PageEntry(chunk[|chunk| - 1], first in chunk, |chunk|, number)
  }

  function EntriesOf<T(==)>(first: T, chunks: seq<seq<T>>): (pages: seq<PageEntry<T>>)
    requires NonEmpty(chunks)
    ensures |pages| == |chunks|
  {
    seq(|chunks|, k requires 0 <= k < |chunks| => EntryOf(first, chunks[k], k + 1))
  }

  /** The last entry marked as current. */
  function LastCurrent<T>(pages: seq<PageEntry<T>>): Option<PageEntry<T>> {
    if pages == [] then None
    else if pages[|pages| - 1].isCurrent then Some(pages[|pages| - 1])
    else LastCurrent(pages[..|pages| - 1])
  }

  lemma ChunkFirst<T>(c: seq<T>, rest: seq<T>, size: nat)
    requires |c| == size > 0
    ensures Chunks(c + rest, size) == [c] + Chunks(rest, size)
  {
    assert (c + rest)[..size] == c && (c + rest)[size..] == rest;
  }

  lemma {:induction false} ChunksSnoc<T>(full: seq<seq<T>>, xs: seq<T>, size: nat)
    requires size > 0 && Full(full, size)
    ensures Chunks(Flatten(full) + xs, size) == full + Chunks(xs, size)
  {
    if full == [] {
      assert Flatten(full) + xs == xs;
    } else {
      assert Flatten(full) + xs == full[0] + (Flatten(full[1..]) + xs);
      ChunkFirst(full[0], Flatten(full[1..]) + xs, size);
      ChunksSnoc(full[1..], xs, size);
    }
  }

  lemma EntriesSnoc<T>(first: T, chunks: seq<seq<T>>, c: seq<T>)
    requires c != [] && NonEmpty(chunks)
    ensures NonEmpty(chunks + [c])
    ensures EntriesOf(first, chunks + [c]) == EntriesOf(first, chunks) + [EntryOf(first, c, |chunks| + 1)]
    ensures LastCurrent(EntriesOf(first, chunks + [c])) ==
              if first in c then Some(EntryOf(first, c, |chunks| + 1)) else LastCurrent(EntriesOf(first, chunks))
  {
    var pages := EntriesOf(first, chunks);
    var e := EntryOf(first, c, |chunks| + 1);
    assert (pages + [e])[..|pages|] == pages;
  }

  lemma {:induction false} FlattenSnoc<T>(chunks: seq<seq<T>>, c: seq<T>)
    ensures Flatten(chunks + [c]) == Flatten(chunks) + c
  {
    if chunks != [] {
      assert (chunks + [c])[1..] == chunks[1..] + [c];
      FlattenSnoc(chunks[1..], c);
    }
  }

  lemma FullSnoc<T>(full: seq<seq<T>>, open: seq<T>, size: nat)
    requires |open| == size > 0 && Full(full, size)
    ensures Full(full + [open], size) && NonEmpty(full + [open])
  {
    var longer := full + [open];
    forall k | 0 <= k < |longer|
      ensures |longer[k]| == size
    {
      assert k < |full| ==> longer[k] == full[k];
    }
  }

  /** Completing a chunk adds its entry to the index. */
  lemma {:induction false} CompleteChunk<T>(first: T, full: seq<seq<T>>, open: seq<T>, size: nat)
    requires |open| == size > 0 && Full(full, size) && NonEmpty(full)
    ensures Full(full + [open], size) && NonEmpty(full + [open])
    ensures Flatten(full + [open]) + [] == Flatten(full) + open
    ensures EntriesOf(first, full + [open]) == EntriesOf(first, full) + [EntryOf(first, open, |full| + 1)]
    ensures LastCurrent(EntriesOf(first, full + [open])) ==
              if first in open then Some(EntryOf(first, open, |full| + 1)) else LastCurrent(EntriesOf(first, full))
  {
    FullSnoc(full, open, size);
    assert Flatten(full + [open]) + [] == Flatten(full) + open by {
      FlattenSnoc(full, open);
    }
    EntriesSnoc(first, full, open);
  }

  // Division by repeated subtraction, and why it is division.

  /** Where page k starts: k * size. */
  function Start(k: nat, size: nat): nat {
    if k == 0 then 0 else Start(k - 1, size) + size
  }

  /** On which page position m lies: m / size. */
  function PageOf(m: nat, size: nat): nat
    requires size > 0
  {
    if m < size then 0 else 1 + PageOf(m - size, size)
  }

  lemma QuotientUnique(size: nat, q: int, r: int, q': int, r': int)
    requires 0 <= r < size && 0 <= r' < size && q * size + r == q' * size + r'
    ensures q == q' && r == r'
  {
    assert (q - q') * size == r' - r;
    assert (q' - q) * size == r - r';
    if q > q' {
      MultiplyMonotone(1, q - q', size);
    } else if q < q' {
      MultiplyMonotone(1, q' - q, size);
    }
  }

  lemma MultiplyMonotone(a: int, b: int, size: nat)
    requires a <= b
    ensures a * size <= b * size
  {
  }

  lemma AddDivisor(a: nat, size: nat)
    requires size > 0
    ensures (a + size) % size == a % size && (a + size) / size == a / size + 1
  {
    var q, r, q', r' := a / size, a % size, (a + size) / size, (a + size) % size;
    assert q * size + r == a;
    assert q' * size + r' == a + size;
    assert (q + 1) * size == q * size + size;
    QuotientUnique(size, q + 1, r, q', r');
  }

  lemma BelowDivisor(a: nat, size: nat)
    requires a < size
    ensures a / size == 0 && a % size == a
  {
    var q, r := a / size, a % size;
    assert q * size + r == a;
    QuotientUnique(size, 0, a, q, r);
  }

  lemma {:induction false} PageOfIsQuotient(m: nat, size: nat)
    requires size > 0
    ensures PageOf(m, size) == m / size
  {
    if m < size {
      BelowDivisor(m, size);
    } else {
      PageOfIsQuotient(m - size, size);
      AddDivisor(m - size, size);
    }
  }

  lemma {:induction false} Remainder(pages: nat, size: nat, i: nat)
    requires i < size
    ensures (Start(pages, size) + i) % size == i
  {
    if pages > 0 {
      Remainder(pages - 1, size, i);
      AddDivisor(Start(pages - 1, size) + i, size);
    } else {
      BelowDivisor(i, size);
    }
  }

  /** pagination_helpers.go lines 23 to 76. */
  method GetPages<T(==)>(firstCursor: T, cursors: seq<T>, pageSize: nat)
    returns (pages: seq<PageEntry<T>>, currentPage: Option<PageEntry<T>>)
    requires pageSize > 0
    ensures pages == EntriesOf(firstCursor, Chunks(cursors, pageSize))
    ensures currentPage == LastCurrent(pages)
  {
    pages, currentPage := [], None;
    var i: nat, pN: nat, isCurrent := 0, 0, false;
    ghost var full: seq<seq<T>> := [];  // the chunks that are complete
    ghost var open: seq<T> := [];       // the cursors since
    for n := 0 to |cursors|
      invariant cursors[..n] == Flatten(full) + open
      invariant n == Start(|full|, pageSize) + i
      invariant |open| == i < pageSize
      invariant Full(full, pageSize) && NonEmpty(full)
      invariant pages == EntriesOf(firstCursor, full)
      invariant currentPage == LastCurrent(pages)
      invariant pN == if i == 0 then |full| else |full| + 1
      invariant i > 0 ==> (isCurrent <==> firstCursor in open)
    {
      var c := cursors[n];
      i := i + 1;
      if i == 1 {
        pN := pN + 1;
        isCurrent := false;
      }
      if c == firstCursor {
        isCurrent := true;
      }
      OneMoreCursor(cursors, n, full, open);
      open := open + [c];
      if i >= pageSize {
        CompleteChunk(firstCursor, full, open, pageSize);
        pages := pages + [PageEntry(c, isCurrent, i, pN)];
        i := 0;
        if isCurrent {
          currentPage := Some(pages[|pages| - 1]);
        }
        full, open := full + [open], [];
      }
    }
    Remainder(|full|, pageSize, i);
    LastChunk(firstCursor, cursors, full, open, pageSize);
    if |cursors| % pageSize != 0 {
      pages := pages + [PageEntry(cursors[|cursors| - 1], isCurrent, i, pN)];
      if isCurrent {
        currentPage := Some(pages[|pages| - 1]);
      }
    }
  }

  lemma OneMoreCursor<T>(cursors: seq<T>, n: nat, full: seq<seq<T>>, open: seq<T>)
    requires n < |cursors| && cursors[..n] == Flatten(full) + open
    ensures cursors[..n + 1] == Flatten(full) + (open + [cursors[n]])
  {
    assert cursors[..n + 1] == cursors[..n] + [cursors[n]];
  }

  /** What is left open at the end is the last chunk, and its entry completes the index. */
  lemma {:induction false} LastChunk<T>(first: T, cursors: seq<T>, full: seq<seq<T>>, open: seq<T>, size: nat)
    requires cursors[..|cursors|] == Flatten(full) + open && |open| < size && Full(full, size) && NonEmpty(full)
    ensures var index, done := EntriesOf(first, Chunks(cursors, size)), EntriesOf(first, full);
            if open == [] then index == done
            else
              && open[|open| - 1] == cursors[|cursors| - 1]
              && index == done + [EntryOf(first, open, |full| + 1)]
              && LastCurrent(index) ==
                   if first in open then Some(EntryOf(first, open, |full| + 1)) else LastCurrent(done)
  {
    assert cursors[..|cursors|] == cursors;
    OpenChunk(cursors, full, open, size);
    if open != [] {
      EntriesSnoc(first, full, open);
    }
  }

  lemma {:induction false} OpenChunk<T>(cursors: seq<T>, full: seq<seq<T>>, open: seq<T>, size: nat)
    requires cursors == Flatten(full) + open && |open| < size && Full(full, size)
    ensures Chunks(cursors, size) == if open == [] then full else full + [open]
    ensures open != [] ==> open[|open| - 1] == cursors[|cursors| - 1]
  {
    ChunksSnoc(full, open, size);
    assert open[..Min(size, |open|)] == open && open[Min(size, |open|)..] == [];
  }

  /** pagination_helpers.go lines 77 to 106. */
  method GetPageInfo<T(==)>(res: seq<T>, cursors: seq<T>, pageSize: nat, currentCursor: Option<T>)
    returns (info: PageInfo<T>)
    requires pageSize > 0
    requires res != []
    ensures info.pages == EntriesOf(res[0], Chunks(cursors, pageSize))
    ensures info.nextPageAfter == res[|res| - 1]
    ensures info.pageNumber == match LastCurrent(info.pages) { case None => None case Some(p) => Some(p.number) }
    ensures info.isValidPage <==> exists p :: LastCurrent(info.pages) == Some(p) && currentCursor == Some(p.after)
    ensures info.hasNextPage <==> info.pageNumber.Some? && info.pageNumber.value < |info.pages|
    ensures info.hasPreviousPage <==> info.pageNumber.Some? && info.pageNumber.value > 1
    ensures forall m :: 0 <= m < |cursors| && cursors[m] == res[0] && Distinct(cursors) ==>
              && info.pageNumber == Some(m / pageSize + 1)
              && (info.hasNextPage <==> Start(m / pageSize + 1, pageSize) < |cursors|)
              && (info.hasPreviousPage <==> m >= pageSize)
  {
    var firstCursor := res[0];
    var nextPageAfter := if |res| > 1 then res[|res| - 1] else firstCursor;
    var pages, currentPage := GetPages(firstCursor, cursors, pageSize);
    info := PageInfo(currentPage.Some? && currentPage.value.number < |pages|,
                     currentPage.Some? && currentPage.value.number > 1,
                     currentPage.Some? && currentCursor.Some? && currentPage.value.after == currentCursor.value,
                     if currentPage.Some? then Some(currentPage.value.number) else None,
                     nextPageAfter, pages);
    forall m | 0 <= m < |cursors| && cursors[m] == res[0] && Distinct(cursors)
      ensures info.pageNumber == Some(m / pageSize + 1)
      ensures info.hasNextPage <==> Start(m / pageSize + 1, pageSize) < |cursors|
      ensures info.hasPreviousPage <==> m >= pageSize
    {
      ListedPage(cursors, pageSize, m);
    }
  }

  /** The current page of a listed first cursor. */
  lemma ListedPage<T>(cursors: seq<T>, size: nat, m: nat)
    requires size > 0 && m < |cursors| && Distinct(cursors)
    ensures var pages := EntriesOf(cursors[m], Chunks(cursors, size));
            && LastCurrent(pages).Some?
            && LastCurrent(pages).value.number == m / size + 1
            && (m / size + 1 < |pages| <==> Start(m / size + 1, size) < |cursors|)
            && (m / size + 1 > 1 <==> m >= size)
  {
    PageIndex(cursors, size, m);
    PageOfIsQuotient(m, size);
  }

  // ---------- What the index says ----------

  /** The pages partition the list in order, and all but the last are full. */
  lemma {:induction false} ChunksPartition<T>(xs: seq<T>, size: nat)
    requires size > 0
    ensures Flatten(Chunks(xs, size)) == xs
    ensures forall k :: 0 <= k < |Chunks(xs, size)| - 1 ==> |Chunks(xs, size)[k]| == size
    decreases |xs|
  {
    if xs != [] {
      var rest := xs[Min(size, |xs|)..];
      ChunksPartition(rest, size);
      if |Chunks(xs, size)| > 1 {
        assert rest != [];
      }
    }
  }

  /** There are ceil(n / size) pages. */
  lemma {:induction false} ChunkCount<T>(xs: seq<T>, size: nat)
    requires size > 0
    ensures |Chunks(xs, size)| == (|xs| + size - 1) / size
    decreases |xs|
  {
    if xs == [] {
      BelowDivisor(size - 1, size);
    } else if |xs| <= size {
      BelowDivisor(|xs| - 1, size);
      AddDivisor(|xs| - 1, size);
      assert xs[Min(size, |xs|)..] == [];
    } else {
      ChunkCount(xs[size..], size);
      AddDivisor(|xs| - size + size - 1, size);
    }
  }

  lemma SliceOfRest<T>(xs: seq<T>, n: nat, lo: nat, hi: nat)
    requires n <= |xs| && lo <= hi <= |xs| - n
    ensures xs[n..][lo..hi] == xs[lo + n..hi + n]
  {
  }

  /** Page k holds the cursors from k * size on. */
  lemma {:induction false} ChunkSlice<T>(xs: seq<T>, size: nat, k: nat)
    requires size > 0 && k < |Chunks(xs, size)|
    ensures Start(k, size) < |xs|
    ensures Chunks(xs, size)[k] == xs[Start(k, size)..Min(Start(k + 1, size), |xs|)]
    decreases |xs|
  {
    if k > 0 {
      var rest := xs[Min(size, |xs|)..];
      assert Chunks(xs, size)[k] == Chunks(rest, size)[k - 1];
      assert |rest| > 0;
      ChunkSlice(rest, size, k - 1);
      SliceOfRest(xs, size, Start(k - 1, size), Min(Start(k, size), |rest|));
      assert Start(k, size) == Start(k - 1, size) + size && Start(k + 1, size) == Start(k, size) + size;
    }
  }

  /** Position m lies between the start of its page and the start of the next. */
  lemma {:induction false} PageOfExact(m: nat, size: nat, k: nat)
    requires size > 0
    ensures k == PageOf(m, size) <==> Start(k, size) <= m < Start(k + 1, size)
  {
    if m < size {
      StartGrows(1, k, size);
    } else if k > 0 {
      PageOfExact(m - size, size, k - 1);
    }
  }

  lemma {:induction false} StartGrows(j: nat, k: nat, size: nat)
    ensures j <= k ==> Start(j, size) <= Start(k, size)
  {
    if j < k {
      StartGrows(j, k - 1, size);
    }
  }

  /** Cursor m is on page m / size and, when all cursors differ, on no other. */
  lemma PageOfCursor<T>(xs: seq<T>, size: nat, m: nat, k: nat)
    requires size > 0 && m < |xs| && Distinct(xs) && k < |Chunks(xs, size)|
    ensures xs[m] in Chunks(xs, size)[k] <==> k == PageOf(m, size)
  {
    ChunkSlice(xs, size, k);
    PageOfExact(m, size, k);
    var lo, chunk := Start(k, size), Chunks(xs, size)[k];
    if xs[m] in chunk {
      var i :| 0 <= i < |chunk| && chunk[i] == xs[m];
      assert xs[lo + i] == xs[m];
    }
    if k == PageOf(m, size) {
      assert chunk[m - lo] == xs[m];
    }
  }

  /** The page of position m exists, and a further one exists iff positions remain beyond it. */
  lemma {:induction false} PageExists<T>(xs: seq<T>, size: nat, m: nat)
    requires size > 0 && m < |xs|
    ensures PageOf(m, size) < |Chunks(xs, size)|
    ensures PageOf(m, size) + 1 < |Chunks(xs, size)| <==> Start(PageOf(m, size) + 1, size) < |xs|
    decreases |xs|
  {
    var rest := xs[Min(size, |xs|)..];
    if m < size {
      assert Chunks(rest, size) == [] <==> rest == [];
    } else {
      PageExists(rest, size, m - size);
    }
  }

  lemma {:induction false} OnlyCurrent<T>(pages: seq<PageEntry<T>>, k: nat)
    requires k < |pages| && pages[k].isCurrent
    requires forall j :: 0 <= j < |pages| && j != k ==> !pages[j].isCurrent
    ensures LastCurrent(pages) == Some(pages[k])
  {
    if k < |pages| - 1 {
      OnlyCurrent(pages[..|pages| - 1], k);
    }
  }

  /** Entry k counts the cursors from k * size on, at most size of them, and names the last one. */
  predicate EndsAt<T(==)>(cursors: seq<T>, size: nat, k: nat, entry: PageEntry<T>) {
    && entry.count > 0
    && Start(k, size) + entry.count == (if Start(k, size) + size < |cursors| then Start(k, size) + size else |cursors|)
    && entry.after == cursors[Start(k, size) + entry.count - 1]
  }

  lemma EntryEnds<T>(cursors: seq<T>, size: nat, first: T, k: nat)
    requires size > 0 && k < |Chunks(cursors, size)|
    ensures EndsAt(cursors, size, k, EntriesOf(first, Chunks(cursors, size))[k])
  {
    ChunkSlice(cursors, size, k);
  }

  /** With distinct cursors and cursor m first in the result: there are ceil(n / size) pages, numbered from 1,
      exactly one is current, the one that holds the cursor, a next page exists iff cursors remain beyond that
      one, and a previous one iff cursors come before it. */
  lemma PageIndex<T>(cursors: seq<T>, size: nat, m: nat)
    requires size > 0 && m < |cursors| && Distinct(cursors)
    ensures var pages := EntriesOf(cursors[m], Chunks(cursors, size));
            var p := PageOf(m, size);
            && |pages| == (|cursors| + size - 1) / size
            && (forall k :: 0 <= k < |pages| ==>
                  && pages[k].number == k + 1 && (pages[k].isCurrent <==> k == p)
                  && EndsAt(cursors, size, k, pages[k]))
            && p < |pages| && LastCurrent(pages) == Some(pages[p])
            && (pages[p].number < |pages| <==> Start(p + 1, size) < |cursors|)
            && (pages[p].number > 1 <==> m >= size)
  {
    var pages := EntriesOf(cursors[m], Chunks(cursors, size));
    ChunkCount(cursors, size);
    PageExists(cursors, size, m);
    forall k | 0 <= k < |pages|
      ensures pages[k].isCurrent <==> k == PageOf(m, size)
      ensures EndsAt(cursors, size, k, pages[k])
    {
      PageOfCursor(cursors, size, m, k);
      EntryEnds(cursors, size, cursors[m], k);
    }
    OnlyCurrent(pages, PageOf(m, size));
  }

  /** The list's cursors, as GetAllCursors returns them. */
  function CursorsOf(order: seq<Order>, rows: seq<Row>): (cursors: seq<seq<Field>>)
    ensures |cursors| == |rows|
  {
    seq(|rows|, i requires 0 <= i < |rows| => CursorOf(order, rows[i]))
  }

  /** The index fits the pages that are fetched: asking for the rows after the cursor of entry k - 1 of the
      index yields exactly the rows of entry k. */
  lemma IndexFetchesPage(order: seq<Order>, rows: seq<Row>, size: nat, k: nat, first: seq<Field>)
    requires Pageable(order, rows) && size > 0
    requires k < |Chunks(Sort(order, rows), size)|
    ensures k < |EntriesOf(first, Chunks(CursorsOf(order, Sort(order, rows)), size))|
    ensures var all := Sort(order, rows);
            var pages := EntriesOf(first, Chunks(CursorsOf(order, all), size));
            Page(order, rows, if k == 0 then [] else pages[k - 1].after, size) == Chunks(all, size)[k]
  {
    var all := Sort(order, rows);
    var pages := EntriesOf(first, Chunks(CursorsOf(order, all), size));
    assert |pages| == |Chunks(all, size)| by {
      ChunkCount(all, size);
      ChunkCount(CursorsOf(order, all), size);
    }
    var j := Start(k, size);
    assert j < |all| && Chunks(all, size)[k] == all[j..Min(j + size, |all|)] by {
      ChunkSlice(all, size, k);
    }
    if k > 0 {
      assert j > 0 && pages[k - 1].after == CursorOf(order, all[j - 1]) by {
        LastOfPage(order, all, size, k - 1, first);
      }
    }
    PageStartingAt(order, rows, j, size);
  }

  lemma {:induction false} PageStartingAt(order: seq<Order>, rows: seq<Row>, j: nat, size: nat)
    requires Pageable(order, rows) && j < |Sort(order, rows)|
    ensures var all := Sort(order, rows);
            Page(order, rows, if j == 0 then [] else CursorOf(order, all[j - 1]), size) ==
              all[j..Min(j + size, |all|)]
  {
    var all := Sort(order, rows);
    SortSorts(order, rows);
    PageAt(order, rows, if j == 0 then None else Some(all[j - 1]), j, size);
  }

  lemma LastOfPage(order: seq<Order>, all: seq<Row>, size: nat, k: nat, first: seq<Field>)
    requires size > 0 && k + 1 < |Chunks(all, size)|
    ensures 0 < Start(k + 1, size) <= |all|
    ensures var pages := EntriesOf(first, Chunks(CursorsOf(order, all), size));
            k < |pages| && pages[k].after == CursorOf(order, all[Start(k + 1, size) - 1])
  {
    var cursors := CursorsOf(order, all);
    ChunkCount(all, size);
    ChunkCount(cursors, size);
    ChunkSlice(all, size, k + 1);
    ChunkSlice(cursors, size, k);
  }
}
