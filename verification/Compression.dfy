/** The compressed-page store (internal/memory/advanced.go). */
module Compression {
  import opened Prelude

  const PAGE_BYTES := 4096
  const MIN_RATIO := 0.8

  datatype Compressed = Compressed(pageId: nat, originalSize: nat, compressedSize: nat)

  datatype Store = Store(
    pages: map<nat, Compressed>,
    totalOriginal: int, totalCompressed: int,
    pagesCompressed: int, pagesDecompressed: int,
    ratio: real)

  const EMPTY_STORE := Store(map[], 0, 0, 0, 0, 0.0)

  function Pack(id: nat, bytes: nat): Compressed {
    Compressed(id, bytes, bytes / 2)
  }

  /** Half the size is good enough unless the threshold says otherwise; nothing is stored twice. */
  predicate Accepts(s: Store, minRatio: real, id: nat, bytes: nat) {
    bytes != 0 && (bytes / 2) as real / bytes as real < minRatio && id !in s.pages
  }

  function Insert(s: Store, p: Compressed): Store {
    var o, c := s.totalOriginal + p.originalSize, s.totalCompressed + p.compressedSize;
    s.(pages := s.pages[p.pageId := p], totalOriginal := o, totalCompressed := c,
       ratio := if o > 0 then c as real / o as real else s.ratio)
  }

  function Compress(s: Store, minRatio: real, id: nat, bytes: nat): Store {
    if !Accepts(s, minRatio, id, bytes) then s
    else Insert(s, Pack(id, bytes)).(pagesCompressed := s.pagesCompressed + 1)
  }

  function Decompress(s: Store, id: nat): Store {
    if id !in s.pages then s
    else
      var o, c := s.totalOriginal - s.pages[id].originalSize, s.totalCompressed - s.pages[id].compressedSize;
      s.(pages := s.pages - {id}, totalOriginal := o, totalCompressed := c,
         pagesDecompressed := s.pagesDecompressed + 1,
         ratio := if o > 0 then c as real / o as real else 0.0)
  }

  function Restore(s: Store, p: Compressed): Store {
    if p.pageId in s.pages then s
    else Insert(s, p).(pagesDecompressed := s.pagesDecompressed - 1)
  }

  // ---- Laws ----

  ghost function Originals(s: Store): map<nat, int> {
    map id | id in s.pages :: s.pages[id].originalSize
  }

  ghost function Compresseds(s: Store): map<nat, int> {
    map id | id in s.pages :: s.pages[id].compressedSize
  }

  ghost predicate Valid(s: Store) {
    && (forall id :: id in s.pages ==> s.pages[id].pageId == id && s.pages[id].originalSize > 0)
    && s.totalOriginal == Sum(Originals(s))
    && s.totalCompressed == Sum(Compresseds(s))
    && |s.pages| == s.pagesCompressed - s.pagesDecompressed
    && s.ratio == (if s.totalOriginal > 0 then s.totalCompressed as real / s.totalOriginal as real else 0.0)
  }

  lemma {:induction false} SumNonNegative(m: map<nat, int>)
    requires forall k :: k in m ==> m[k] > 0
    ensures Sum(m) >= 0 && (m != map[] ==> Sum(m) > 0)
    decreases |m|
  {
    if m != map[] {
      var k :| k in m && Sum(m) == m[k] + Sum(m - {k});
      SumNonNegative(m - {k});
    }
  }

  lemma InsertSums(s: Store, p: Compressed)
    requires p.pageId !in s.pages
    ensures Sum(Originals(Insert(s, p))) == Sum(Originals(s)) + p.originalSize
    ensures Sum(Compresseds(Insert(s, p))) == Sum(Compresseds(s)) + p.compressedSize
  {
    assert Originals(Insert(s, p)) == Originals(s)[p.pageId := p.originalSize];
    assert Compresseds(Insert(s, p)) == Compresseds(s)[p.pageId := p.compressedSize];
    SumUpdate(Originals(s), p.pageId, p.originalSize);
    SumUpdate(Compresseds(s), p.pageId, p.compressedSize);
  }

  lemma InsertValid(s: Store, p: Compressed)
    requires Valid(s) && p.pageId !in s.pages && p.originalSize > 0
    ensures Valid(Restore(s, p))
    ensures Valid(Insert(s, p).(pagesCompressed := s.pagesCompressed + 1))
  {
    InsertSums(s, p);
    SumNonNegative(Originals(s));
    assert Originals(Insert(s, p)) == Originals(Restore(s, p))
        == Originals(Insert(s, p).(pagesCompressed := s.pagesCompressed + 1));
    assert Compresseds(Insert(s, p)) == Compresseds(Restore(s, p))
        == Compresseds(Insert(s, p).(pagesCompressed := s.pagesCompressed + 1));
  }

  lemma DecompressValid(s: Store, id: nat)
    requires Valid(s) && id in s.pages
    ensures Valid(Decompress(s, id))
  {
    assert Originals(Decompress(s, id)) == Originals(s) - {id};
    assert Compresseds(Decompress(s, id)) == Compresseds(s) - {id};
    SumRemove(Originals(s), id);
    SumRemove(Compresseds(s), id);
    SumNonNegative(Originals(s) - {id});
  }

  datatype Step = Squeeze(minRatio: real, id: nat, bytes: nat) | Unsqueeze(id: nat) | Undo(page: Compressed)

  function Apply(s: Store, step: Step): Store {
    match step
    case Squeeze(minRatio, id, bytes) => Compress(s, minRatio, id, bytes)
    case Unsqueeze(id) => Decompress(s, id)
    case Undo(page) => Restore(s, page)
  }

  lemma EmptyIsValid()
    ensures Valid(EMPTY_STORE)
  {
    assert Originals(EMPTY_STORE) == map[] && Compresseds(EMPTY_STORE) == map[];
  }

  /** Each step keeps the store in order. */
  lemma ApplyValid(s: Store, step: Step)
    requires Valid(s) && (step.Undo? ==> step.page.originalSize > 0)
    ensures Valid(Apply(s, step))
  {
    match step
    case Squeeze(minRatio, id, bytes) =>
      if Accepts(s, minRatio, id, bytes) {
        InsertValid(s, Pack(id, bytes));
      }
    case Unsqueeze(id) =>
      if id in s.pages {
        DecompressValid(s, id);
      }
    case Undo(page) =>
      if page.pageId !in s.pages {
        InsertValid(s, page);
      }
  }

  function ApplyAll(steps: seq<Step>): Store {
    if steps == [] then EMPTY_STORE else Apply(ApplyAll(steps[..|steps| - 1]), steps[|steps| - 1])
  }

  /** In every run the byte totals are the sums over the stored pages, the number of stored pages is
      pagesCompressed - pagesDecompressed, and the ratio is that of the totals. */
  lemma {:induction false} StoreLawsInEveryRun(steps: seq<Step>)
    requires forall k :: 0 <= k < |steps| && steps[k].Undo? ==> steps[k].page.originalSize > 0
    ensures Valid(ApplyAll(steps))
  {
    if steps == [] {
      EmptyIsValid();
    } else {
      StoreLawsInEveryRun(steps[..|steps| - 1]);
      ApplyValid(ApplyAll(steps[..|steps| - 1]), steps[|steps| - 1]);
    }
  }

  /** Undoing a decompression gives back the store and every counter. */
  lemma RestoreUndoesDecompress(s: Store, id: nat)
    requires Valid(s) && id in s.pages
    ensures Restore(Decompress(s, id), s.pages[id]) == s
  {
    SumRemove(Originals(s), id);
    SumNonNegative(Originals(s));
    assert (s.pages - {id})[id := s.pages[id]] == s.pages;
  }

  // ---- The manager's pages ----

  /** The store holds whole pages, each as an image of half its size. */
  ghost predicate HalfImages(s: Store) {
    forall id :: id in s.pages ==> s.pages[id] == Compressed(id, 4096, 2048)
  }

  lemma ApplyHalfImages(s: Store, step: Step)
    requires HalfImages(s)
    requires match step
             case Squeeze(_, _, bytes) => bytes == PAGE_BYTES
             case Unsqueeze(_) => true
             case Undo(page) => page == Compressed(page.pageId, 4096, 2048)
    ensures HalfImages(Apply(s, step))
  {
  }

  lemma OneFewer<V>(m: map<nat, V>, k: nat)
    requires k in m
    ensures |m - {k}| + 1 == |m|
  {
    assert m.Keys == (m - {k}).Keys + {k};
    assert |m| == |m.Keys| && |m - {k}| == |(m - {k}).Keys|;
  }

  lemma {:induction false} SumOfEqual(m: map<nat, int>, c: int)
    requires forall k :: k in m ==> m[k] == c
    ensures Sum(m) == c * |m|
    decreases |m|
  {
    if m != map[] {
      var k :| k in m && Sum(m) == m[k] + Sum(m - {k});
      OneFewer(m, k);
      SumOfEqual(m - {k}, c);
      hide Sum;
      assert c * |m| == c * |m - {k}| + c;
    }
  }

  lemma SameSize<U, V>(a: map<nat, U>, b: map<nat, V>)
    requires a.Keys == b.Keys
    ensures |a| == |b|
  {
    assert |a| == |a.Keys| && |b| == |b.Keys|;
  }

  lemma HalfOf(n: nat)
    ensures n > 0 ==> (2048 * n) as real / (4096 * n) as real == 0.5
  {
    if n > 0 {
      var x := n as real;
      assert (2048 * n) as real == 2048.0 * x && (4096 * n) as real == 4096.0 * x;
      assert 2048.0 * x == 0.5 * (4096.0 * x);
    }
  }

  /** So the totals count the pages, and the ratio is one half while there are any. */
  lemma HalfImagesHalve(s: Store)
    requires Valid(s) && HalfImages(s)
    ensures s.totalOriginal == 4096 * |s.pages| && s.totalCompressed == 2048 * |s.pages|
    ensures s.ratio == if s.pages == map[] then 0.0 else 0.5
  {
    var o, c := Originals(s), Compresseds(s);
    assert o.Keys == s.pages.Keys && c.Keys == s.pages.Keys;
    assert s.totalOriginal == Sum(o) && s.totalCompressed == Sum(c);
    assert s.ratio == (if s.totalOriginal > 0 then s.totalCompressed as real / s.totalOriginal as real else 0.0);
    assert (forall id :: id in o ==> o[id] == 4096) && (forall id :: id in c ==> c[id] == 2048);
    hide Valid, HalfImages, Originals, Compresseds, Sum;
    SumOfEqual(o, 4096);
    SumOfEqual(c, 2048);
    SameSize(o, s.pages);
    SameSize(c, s.pages);
    HalfOf(|s.pages|);
  }

  class CompressionManager {
    var compressedPages: map<nat, Compressed>
    var totalOriginal: int
    var totalCompressed: int
    var pagesCompressed: int
    var pagesDecompressed: int
    var compressionRatio: real
    const minRatio: real

    ghost function State(): Store
      reads this
    {
      Store(compressedPages, totalOriginal, totalCompressed, pagesCompressed, pagesDecompressed, compressionRatio)
    }

    constructor (minRatio: real)
      ensures State() == EMPTY_STORE && this.minRatio == minRatio
    {
      compressedPages := map[];
      totalOriginal, totalCompressed, pagesCompressed, pagesDecompressed := 0, 0, 0, 0;
      compressionRatio := 0.0;
      this.minRatio := minRatio;
    }

    method CompressPage(pageId: nat, bytes: nat) returns (page: Option<Compressed>)
      modifies this
      ensures page == if Accepts(old(State()), minRatio, pageId, bytes) then Some(Pack(pageId, bytes)) else None
      ensures State() == Compress(old(State()), minRatio, pageId, bytes)
    {
      if bytes == 0 {
        return None;
      }
      var compressedSize := bytes / 2;
      if compressedSize as real / bytes as real >= minRatio {
        return None;
      }
      if pageId in compressedPages {
        return None;
      }
      var cp := Compressed(pageId, bytes, compressedSize);
      compressedPages := compressedPages[pageId := cp];
      totalOriginal := totalOriginal + bytes;
      totalCompressed := totalCompressed + compressedSize;
      pagesCompressed := pagesCompressed + 1;
      if totalOriginal > 0 {
        compressionRatio := totalCompressed as real / totalOriginal as real;
      }
      return Some(cp);
    }

    method RestoreCompressed(page: Compressed)
      modifies this
      ensures State() == Restore(old(State()), page)
    {
      if page.pageId in compressedPages {
        return;
      }
      compressedPages := compressedPages[page.pageId := page];
      totalOriginal := totalOriginal + page.originalSize;
      totalCompressed := totalCompressed + page.compressedSize;
      pagesDecompressed := pagesDecompressed - 1;
      if totalOriginal > 0 {
        compressionRatio := totalCompressed as real / totalOriginal as real;
      }
    }

    method DecompressPage(pageId: nat) returns (page: Option<Compressed>)
      modifies this
      ensures page == if pageId in old(compressedPages) then Some(old(compressedPages)[pageId]) else None
      ensures State() == Decompress(old(State()), pageId)
    {
      if pageId !in compressedPages {
        return None;
      }
      var cp := compressedPages[pageId];
      compressedPages := compressedPages - {pageId};
      totalOriginal := totalOriginal - cp.originalSize;
      totalCompressed := totalCompressed - cp.compressedSize;
      pagesDecompressed := pagesDecompressed + 1;
      if totalOriginal > 0 {
        compressionRatio := totalCompressed as real / totalOriginal as real;
      } else {
        compressionRatio := 0.0;
      }
      return Some(cp);
    }

    method Reset()
      modifies this
      ensures State() == EMPTY_STORE
    {
      compressedPages := map[];
      totalOriginal, totalCompressed, pagesCompressed, pagesDecompressed := 0, 0, 0, 0;
      compressionRatio := 0.0;
    }
  }
}
