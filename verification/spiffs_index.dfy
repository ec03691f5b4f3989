/**
 The page, block and span arithmetic of spiffs_nucleus.h, for all sizes.
 */
module SpiffsIndex {

  /**
   Sizes in bytes: of a block, a page and an entry of the object lookup, and of what precedes
   the entries in an object index header page and in the other object index pages.
   */
  datatype Config = Config(physAddr: nat, blockSize: nat, pageSize: nat, idSize: nat, ixSize: nat, hdrHead: nat, ixHead: nat)
  {
    /** What the layout needs: a block holds a page, a page holds some entries of each kind. */
    predicate Sane() {
      && 0 < pageSize <= blockSize && 0 < idSize && 2 * idSize <= pageSize
      && 0 < ixSize && hdrHead <= pageSize && ixHead + ixSize <= pageSize
    }
  }

  // ---------------------------------------------------------------- arithmetic

  lemma ProductsApart(a: int, b: int, m: int)
    requires m > 0 && a < b
    ensures a * m + m <= b * m
  {
    assert (b - a - 1) * m >= 0;
    assert b * m == a * m + m + (b - a - 1) * m;
  }

  /** Quotient and remainder are unique. */
  lemma QuotientIs(q: int, r: int, m: int)
    requires m > 0 && 0 <= r < m
    ensures (q * m + r) / m == q && (q * m + r) % m == r
  {
    var x := q * m + r;
    var p := x / m;
    assert x == p * m + x % m;
    if p < q {
      ProductsApart(p, q, m);
    } else if q < p {
      ProductsApart(q, p, m);
    }
  }

  lemma AtLeast(x: int, q: int, m: int)
    requires m > 0 && x >= q * m
    ensures x / m >= q
  {
    if x / m < q {
      ProductsApart(x / m, q, m);
    }
  }

  lemma IdsFit(n: nat, id: nat, page: nat)
    requires 0 < id <= page
    ensures 0 <= n * id / page <= n
  {
    assert n * (page - id) >= 0;
    assert n * page == n * id + n * (page - id);
    AtMost(n * id, n, page);
  }

  lemma AtMost(x: int, q: int, m: int)
    requires m > 0 && x <= q * m
    ensures x / m <= q
  {
    if q < x / m {
      ProductsApart(q, x / m, m);
    }
  }

  // ---------------------------------------------------------------- the macros

  function Max(a: nat, b: nat): nat { if a > b then a else b }

  function PagesPerBlock(fs: Config): (n: nat)
    requires fs.Sane()
    ensures n > 0
  {
    AtLeast(fs.blockSize, 1, fs.pageSize);
    fs.blockSize / fs.pageSize
  }

  /** The object lookup pages of a block are pages of it. */
  function LookupPages(fs: Config): (n: nat)
    requires fs.Sane()
    ensures 1 <= n <= PagesPerBlock(fs)
  {
    var n := PagesPerBlock(fs);
    IdsFit(n, fs.idSize, fs.pageSize);
    Max(1, n * fs.idSize / fs.pageSize)
  }

  /** The lookup entries that fit in one page. */
  function IdsPerPage(fs: Config): (n: nat)
    requires fs.Sane()
    ensures n >= 2
  {
    AtLeast(fs.pageSize, 2, fs.idSize);
    fs.pageSize / fs.idSize
  }

  predicate IsLookupPage(fs: Config, pix: nat)
    requires fs.Sane()
  {
    pix % PagesPerBlock(fs) < LookupPages(fs)
  }

  function LookupMaxEntries(fs: Config): nat
    requires fs.Sane()
  {
    PagesPerBlock(fs) - LookupPages(fs)
  }

  function BlockToPaddr(fs: Config, block: nat): nat { fs.physAddr + block * fs.blockSize }

  function EntryToPix(fs: Config, block: nat, entry: nat): nat
    requires fs.Sane()
  {
    block * PagesPerBlock(fs) + (LookupPages(fs) + entry)
  }

  function EntryToPaddr(fs: Config, block: nat, entry: nat): nat
    requires fs.Sane()
  {
    BlockToPaddr(fs, block) + (LookupPages(fs) + entry) * fs.pageSize
  }

  function PageToPaddr(fs: Config, page: nat): nat { fs.physAddr + page * fs.pageSize }

  function PaddrToPage(fs: Config, addr: nat): nat
    requires fs.Sane() && addr >= fs.physAddr
  {
    (addr - fs.physAddr) / fs.pageSize
  }

  function PaddrToPageOffset(fs: Config, addr: nat): nat
    requires fs.Sane() && addr >= fs.physAddr
  {
    (addr - fs.physAddr) % fs.pageSize
  }

  function BlockForPage(fs: Config, page: nat): nat
    requires fs.Sane()
  {
    page / PagesPerBlock(fs)
  }

  function EntryForPage(fs: Config, page: nat): int
    requires fs.Sane()
  {
    page % PagesPerBlock(fs) - LookupPages(fs)
  }

  function EraseCountPaddr(fs: Config, block: nat): int
    requires fs.Sane()
  {
    BlockToPaddr(fs, block) + LookupPages(fs) * fs.pageSize - fs.idSize
  }

  function MagicPaddr(fs: Config, block: nat): int
    requires fs.Sane()
  {
    BlockToPaddr(fs, block) + LookupPages(fs) * fs.pageSize - fs.idSize * 2
  }

  predicate CheckMagicPossible(fs: Config)
    requires fs.Sane()
  {
    LookupMaxEntries(fs) % IdsPerPage(fs) * fs.idSize <= fs.pageSize - fs.idSize * 2
  }

  function ObjHdrIxLen(fs: Config): nat
    requires fs.Sane()
  {
    (fs.pageSize - fs.hdrHead) / fs.ixSize
  }

  function ObjIxLen(fs: Config): (n: nat)
    requires fs.Sane()
    ensures n > 0
  {
    AtLeast(fs.pageSize - fs.ixHead, 1, fs.ixSize);
    (fs.pageSize - fs.ixHead) / fs.ixSize
  }

  /** The entry of data span `spix` in its object index page. */
  function IxEntry(fs: Config, spix: nat): nat
    requires fs.Sane()
  {
    if spix < ObjHdrIxLen(fs) then spix else (spix - ObjHdrIxLen(fs)) % ObjIxLen(fs)
  }

  /** The span index of the object index page that data span `spix` is in. */
  function IxEntrySpanIx(fs: Config, spix: nat): nat
    requires fs.Sane()
  {
    if spix < ObjHdrIxLen(fs) then 0 else 1 + (spix - ObjHdrIxLen(fs)) / ObjIxLen(fs)
  }

  /** The first data span of object index page `spix`. */
  function DataSpanIxFor(fs: Config, spix: nat): nat
    requires fs.Sane()
  {
    if spix == 0 then 0 else ObjHdrIxLen(fs) + (spix - 1) * ObjIxLen(fs)
  }

  /** Quotients: so many fit, and no more. */
  lemma FitsExactly(x: nat, m: nat)
    requires m > 0
    ensures x / m * m <= x < (x / m + 1) * m
  {
    assert x == x / m * m + x % m;
  }

  /** As many pages as fit in a block, and entries as fit in a page of each kind behind its head. */
  lemma AsManyAsFit(fs: Config)
    requires fs.Sane()
    ensures PagesPerBlock(fs) * fs.pageSize <= fs.blockSize < (PagesPerBlock(fs) + 1) * fs.pageSize
    ensures IdsPerPage(fs) * fs.idSize <= fs.pageSize < (IdsPerPage(fs) + 1) * fs.idSize
    ensures fs.hdrHead + ObjHdrIxLen(fs) * fs.ixSize <= fs.pageSize < fs.hdrHead + (ObjHdrIxLen(fs) + 1) * fs.ixSize
    ensures fs.ixHead + ObjIxLen(fs) * fs.ixSize <= fs.pageSize < fs.ixHead + (ObjIxLen(fs) + 1) * fs.ixSize
  {
    FitsExactly(fs.blockSize, fs.pageSize);
    FitsExactly(fs.pageSize, fs.idSize);
    FitsExactly(fs.pageSize - fs.hdrHead, fs.ixSize);
    FitsExactly(fs.pageSize - fs.ixHead, fs.ixSize);
  }

  /** The lookup pages are those that ids for all pages of the block would fill, or one. */
  lemma LookupPagesFilled(fs: Config)
    requires fs.Sane()
    ensures var ids := PagesPerBlock(fs) * fs.idSize;
            && ids < (LookupPages(fs) + 1) * fs.pageSize
            && (LookupPages(fs) * fs.pageSize <= ids || (LookupPages(fs) == 1 && ids < fs.pageSize))
  {
    FitsExactly(PagesPerBlock(fs) * fs.idSize, fs.pageSize);
    IdsFit(PagesPerBlock(fs), fs.idSize, fs.pageSize);
  }

  /** The example of the layout comment. */
  lemma LayoutExample(fs: Config)
    requires fs.Sane() && fs.blockSize == 65536 && fs.pageSize == 256 && fs.idSize == 2
    ensures PagesPerBlock(fs) == 256 && LookupPages(fs) == 2 && LookupMaxEntries(fs) == 254
    ensures IsLookupPage(fs, 0) && IsLookupPage(fs, 1) && !IsLookupPage(fs, 2) && IsLookupPage(fs, 256)
    ensures EntryToPix(fs, 1, 0) == 258 && EntryToPaddr(fs, 1, 0) == fs.physAddr + 258 * 256
  {
  }

  // ---------------------------------------------------------------- spans

  /** How many entries the object index page with span index o has. */
  function EntriesOf(fs: Config, o: nat): nat
    requires fs.Sane()
  {
    if o == 0 then ObjHdrIxLen(fs) else ObjIxLen(fs)
  }

  /** Every data span is the first span of its object index page plus its entry there. */
  lemma SpanHasPlace(fs: Config, spix: nat)
    requires fs.Sane()
    ensures IxEntry(fs, spix) < EntriesOf(fs, IxEntrySpanIx(fs, spix))
    ensures DataSpanIxFor(fs, IxEntrySpanIx(fs, spix)) + IxEntry(fs, spix) == spix
  {
  }

  /** Every entry of every object index page is the place of one data span. */
  lemma PlaceHasSpan(fs: Config, o: nat, entry: nat)
    requires fs.Sane() && entry < EntriesOf(fs, o)
    ensures IxEntrySpanIx(fs, DataSpanIxFor(fs, o) + entry) == o
    ensures IxEntry(fs, DataSpanIxFor(fs, o) + entry) == entry
  {
    if o > 0 {
      QuotientIs(o - 1, entry, ObjIxLen(fs));
    }
  }

  // ---------------------------------------------------------------- pages

  /** The page of a lookup entry is in its block, and is no lookup page. */
  lemma EntryHasPage(fs: Config, block: nat, entry: nat)
    requires fs.Sane() && entry < LookupMaxEntries(fs)
    ensures var pix := EntryToPix(fs, block, entry);
            BlockForPage(fs, pix) == block && EntryForPage(fs, pix) == entry && !IsLookupPage(fs, pix)
  {
    QuotientIs(block, LookupPages(fs) + entry, PagesPerBlock(fs));
  }

  /** Every page that is no lookup page has one lookup entry, in its block. */
  lemma PageHasEntry(fs: Config, pix: nat)
    requires fs.Sane() && !IsLookupPage(fs, pix)
    ensures 0 <= EntryForPage(fs, pix) < LookupMaxEntries(fs)
    ensures EntryToPix(fs, BlockForPage(fs, pix), EntryForPage(fs, pix)) == pix
  {
  }

  /** The pages cover the area from physAddr on, each byte once. */
  lemma AddressHasPage(fs: Config, page: nat, offset: nat, addr: nat)
    requires fs.Sane() && offset < fs.pageSize && addr >= fs.physAddr
    ensures PaddrToPage(fs, PageToPaddr(fs, page) + offset) == page
    ensures PaddrToPageOffset(fs, PageToPaddr(fs, page) + offset) == offset
    ensures PageToPaddr(fs, PaddrToPage(fs, addr)) + PaddrToPageOffset(fs, addr) == addr
    ensures PaddrToPageOffset(fs, addr) < fs.pageSize
  {
    QuotientIs(page, offset, fs.pageSize);
  }

  /**
   The address of an entry's page by way of its block, and by way of its page index: they
   agree exactly in block 0 and if pages divide blocks evenly, as the layout asks for.
   */
  lemma TwoRoutesAgreeIff(fs: Config, block: nat, entry: nat)
    requires fs.Sane()
    ensures EntryToPaddr(fs, block, entry) == PageToPaddr(fs, EntryToPix(fs, block, entry))
            <==> block == 0 || fs.blockSize % fs.pageSize == 0
  {
    var n, r := PagesPerBlock(fs), fs.blockSize % fs.pageSize;
    assert fs.blockSize == n * fs.pageSize + r;
    Distributes(block, n, LookupPages(fs) + entry, fs.pageSize, r);
    if block > 0 && r > 0 {
      ProductsApart(0, block, r);
    }
  }

  lemma Distributes(block: int, n: int, k: int, page: int, r: int)
    ensures block * (n * page + r) + k * page == (block * n + k) * page + block * r
  {
  }

  /** The sizes of spiffs.h: 32 bytes of every block of 8192 are not in any of its pages of 255. */
  lemma ShippedSizesDisagree(fs: Config, entry: nat)
    requires fs.Sane() && fs.blockSize == 8192 && fs.pageSize == 0xFF
    ensures EntryToPaddr(fs, 1, entry) != PageToPaddr(fs, EntryToPix(fs, 1, entry))
  {
    TwoRoutesAgreeIff(fs, 1, entry);
  }

  /** The magic and the erase count are the last two entries before the first data page, both in the last lookup page. */
  lemma MarksEndTheLookup(fs: Config, block: nat)
    requires fs.Sane()
    ensures MagicPaddr(fs, block) + fs.idSize == EraseCountPaddr(fs, block)
    ensures EraseCountPaddr(fs, block) + fs.idSize == EntryToPaddr(fs, block, 0)
    ensures BlockToPaddr(fs, block) + (LookupPages(fs) - 1) * fs.pageSize <= MagicPaddr(fs, block)
  {
    assert (LookupPages(fs) - 1) * fs.pageSize == LookupPages(fs) * fs.pageSize - fs.pageSize;
  }

  // ---------------------------------------------------------------- room for the magic

  /** The lookup pages of a block have room for its entries, the magic and the erase count. */
  predicate RoomForMagic(fs: Config)
    requires fs.Sane()
  {
    LookupMaxEntries(fs) * fs.idSize + 2 * fs.idSize <= LookupPages(fs) * fs.pageSize
  }

  /** With whole entries in every lookup page: the entries to spare, less one. */
  function Spare(fs: Config): int
    requires fs.Sane()
  {
    LookupPages(fs) * (IdsPerPage(fs) + 1) - PagesPerBlock(fs) - 1
  }

  /** The entries that fit into the ends of the lookup pages taken together. */
  function InEnds(fs: Config): nat
    requires fs.Sane()
  {
    LookupPages(fs) * (fs.pageSize % fs.idSize) / fs.idSize
  }

  lemma Multiple(l: int, x: int, m: int)
    requires m > 0
    ensures (l * m + x) % m == x % m
  {
    var q, r := x / m, x % m;
    assert l * m + x == (l + q) * m + r;
    QuotientIs(l + q, r, m);
  }

  lemma FitsIff(r: int, m: int, s: int, id: int)
    requires 0 <= s < id && m >= 2
    ensures r * id <= m * id + s - id * 2 <==> r <= m - 2
  {
    assert (m - 2) * id == m * id - id * 2;
    if r < m - 2 {
      ProductsApart(r, m - 2, id);
    } else if r > m - 2 {
      ProductsApart(m - 2, r, id);
    }
  }

  lemma LastRemainder(e: int, m: int)
    requires m >= 2
    ensures e % m <= m - 2 <==> (-e - 1) % m != 0
  {
    var q, r := e / m, e % m;
    assert e == q * m + r;
    assert -e - 1 == (-q - 1) * m + (m - 1 - r);
    QuotientIs(-q - 1, m - 1 - r, m);
  }

  lemma CheckIs(e: int, m: int, s: int, id: int, l: int)
    requires 0 <= s < id && m >= 2
    ensures e % m * id <= m * id + s - id * 2 <==> (l * m - e - 1) % m != 0
  {
    FitsIff(e % m, m, s, id);
    LastRemainder(e, m);
    Multiple(l, -e - 1, m);
    assert l * m - e - 1 == l * m + (-e - 1);
  }

  lemma Divides(p: int, id: int)
    requires id > 0
    ensures p == p / id * id + p % id && 0 <= p % id < id
  {
  }

  lemma SpareAs(l: int, m: int, n: int)
    ensures l * (m + 1) - n - 1 == l * m - (n - l) - 1
  {
  }

  /** A page is its entries and the end behind them. */
  lemma PageIs(fs: Config)
    requires fs.Sane()
    ensures fs.pageSize == IdsPerPage(fs) * fs.idSize + fs.pageSize % fs.idSize && 0 <= fs.pageSize % fs.idSize < fs.idSize
    ensures Spare(fs) == LookupPages(fs) * IdsPerPage(fs) - LookupMaxEntries(fs) - 1
  {
    hide PagesPerBlock, LookupPages;
    Divides(fs.pageSize, fs.idSize);
    SpareAs(LookupPages(fs), IdsPerPage(fs), PagesPerBlock(fs));
  }

  /** What the check computes. */
  lemma MagicCheckIs(fs: Config)
    requires fs.Sane()
    ensures CheckMagicPossible(fs) <==> Spare(fs) % IdsPerPage(fs) != 0
  {
    PageIs(fs);
    hide IdsPerPage, LookupMaxEntries, LookupPages, PagesPerBlock, Spare;
    CheckIs(LookupMaxEntries(fs), IdsPerPage(fs), fs.pageSize % fs.idSize, fs.idSize, LookupPages(fs));
  }

  lemma RoomIs(e: int, m: int, s: int, id: int, l: int)
    requires 0 <= s < id && l >= 0
    ensures e * id + 2 * id <= l * (m * id + s) <==> l * m - e - 1 + l * s / id >= 1
  {
    var k := e + 2 - l * m;
    var q, r := l * s / id, l * s % id;
    assert l * s == q * id + r;
    assert l * (m * id + s) == l * m * id + l * s;
    assert e * id + 2 * id == k * id + l * m * id;
    if k <= q {
      assert (q - k) * id >= 0;
    } else {
      ProductsApart(q, k, id);
    }
  }

  /** What there is room for. */
  lemma RoomForMagicIs(fs: Config)
    requires fs.Sane()
    ensures RoomForMagic(fs) <==> Spare(fs) + InEnds(fs) >= 1
  {
    PageIs(fs);
    hide IdsPerPage, LookupMaxEntries, LookupPages, PagesPerBlock, Spare;
    RoomIs(LookupMaxEntries(fs), IdsPerPage(fs), fs.pageSize % fs.idSize, fs.idSize, LookupPages(fs));
  }

  /** The check for the magic says that there is room exactly when there is, under exactly this condition on the sizes. */
  lemma MagicCheckRightIff(fs: Config)
    requires fs.Sane()
    ensures (CheckMagicPossible(fs) <==> RoomForMagic(fs))
            <==> if Spare(fs) + InEnds(fs) >= 1 then Spare(fs) % IdsPerPage(fs) != 0 else Spare(fs) % IdsPerPage(fs) == 0
  {
    MagicCheckIs(fs);
    RoomForMagicIs(fs);
  }

  /** A block whose entries leave one of their single page free, as with the sizes of spiffs.h: the check is right. */
  lemma MagicCheckRightForSmallBlocks(fs: Config)
    requires fs.Sane() && PagesPerBlock(fs) < IdsPerPage(fs)
    ensures CheckMagicPossible(fs) && RoomForMagic(fs)
  {
    PageIs(fs);
    var n, m := PagesPerBlock(fs), IdsPerPage(fs);
    ProductsApart(n, m, fs.idSize);
    QuotientIs(0, n * fs.idSize, fs.pageSize);
    assert LookupPages(fs) == 1 && Spare(fs) == m - n;
    QuotientIs(0, m - n, m);
    MagicCheckIs(fs);
    RoomForMagicIs(fs);
  }

  /** The sizes of spiffs.h are such sizes. */
  lemma ShippedCheckIsRight(fs: Config)
    requires fs.Sane() && fs.blockSize == 8192 && fs.pageSize == 0xFF && fs.idSize == 2
    ensures CheckMagicPossible(fs) && RoomForMagic(fs)
  {
    MagicCheckRightForSmallBlocks(fs);
  }

  lemma WholePages(n: nat, m: nat, id: nat)
    requires m > 0 && id > 0
    ensures m * id > 0 && n * id / (m * id) == n / m
  {
    var k, r := n / m, n % m;
    assert n == k * m + r;
    Scaled(k, m, r, id);
    ProductsApart(r, m, id);
    QuotientIs(k, r * id, m * id);
  }

  lemma Scaled(k: int, m: int, r: int, id: int)
    ensures (k * m + r) * id == k * (m * id) + r * id
  {
  }

  /** With whole entries in a page, lookup pages are counted in entries. */
  lemma LookupPagesIs(fs: Config)
    requires fs.Sane() && fs.pageSize % fs.idSize == 0
    ensures LookupPages(fs) == Max(1, PagesPerBlock(fs) / IdsPerPage(fs))
  {
    PageIs(fs);
    hide IdsPerPage, PagesPerBlock, Spare;
    WholePages(PagesPerBlock(fs), IdsPerPage(fs), fs.idSize);
  }

  /** How the pages of a block divide into full lookup pages of entries, and a rest. */
  function Surplus(fs: Config): int
    requires fs.Sane()
  {
    PagesPerBlock(fs) / IdsPerPage(fs) - PagesPerBlock(fs) % IdsPerPage(fs)
  }

  lemma SurplusIs(n: int, m: int)
    requires 0 < m <= n
    ensures n / m >= 1 && n / m * (m + 1) - n - 1 == n / m - n % m - 1
    ensures n / m - n % m - 1 > -m
  {
    AtLeast(n, 1, m);
    assert n == n / m * m + n % m;
    assert n / m * (m + 1) == n / m * m + n / m;
  }

  lemma NothingInEnds(l: int, id: int)
    requires id > 0
    ensures l * 0 / id == 0
  {
    QuotientIs(0, 0, id);
  }

  lemma SpareIs(fs: Config)
    requires fs.Sane() && fs.pageSize % fs.idSize == 0 && PagesPerBlock(fs) >= IdsPerPage(fs)
    ensures var x := Spare(fs); x == Surplus(fs) - 1 && x + IdsPerPage(fs) > 0
    ensures InEnds(fs) == 0
  {
    LookupPagesIs(fs);
    hide IdsPerPage, PagesPerBlock, LookupPages;
    SurplusIs(PagesPerBlock(fs), IdsPerPage(fs));
    NothingInEnds(LookupPages(fs), fs.idSize);
  }

  lemma RemainderOne(x: int, m: int)
    requires m >= 2
    ensures x % m == 0 <==> (x + 1) % m == 1
  {
    var q, r := x / m, x % m;
    assert x == q * m + r;
    if r + 1 < m {
      assert x + 1 == q * m + (r + 1);
      QuotientIs(q, r + 1, m);
    } else {
      assert x + 1 == (q + 1) * m + 0;
      QuotientIs(q + 1, 0, m);
    }
  }

  lemma NoMultipleBelow(x: int, m: int)
    requires m >= 2
    ensures -m < x < 0 ==> x % m != 0
    ensures x == 0 ==> x % m == 0
  {
    if -m < x < 0 {
      QuotientIs(-1, x + m, m);
    }
  }

  /**
   With whole entries in a page the condition is one on the two counts alone: the entries of
   a block fit in one page, or its full pages outnumber the rest, by one or by a number that
   does not leave 1.
   */
  lemma MagicCheckRightIffCounts(fs: Config)
    requires fs.Sane() && fs.pageSize % fs.idSize == 0
    ensures (CheckMagicPossible(fs) <==> RoomForMagic(fs))
            <==> || PagesPerBlock(fs) < IdsPerPage(fs)
                 || Surplus(fs) == 1
                 || (Surplus(fs) > 1 && Surplus(fs) % IdsPerPage(fs) != 1)
  {
    if PagesPerBlock(fs) < IdsPerPage(fs) {
      MagicCheckRightForSmallBlocks(fs);
    } else {
      SpareIs(fs);
      MagicCheckRightIff(fs);
      hide IdsPerPage, Surplus, Spare, InEnds, PagesPerBlock, CheckMagicPossible, RoomForMagic;
      RemainderOne(Surplus(fs) - 1, IdsPerPage(fs));
      NoMultipleBelow(Surplus(fs) - 1, IdsPerPage(fs));
    }
  }

  predicate IsPowerOfTwo(n: nat) {
    n == 1 || (n > 1 && n % 2 == 0 && IsPowerOfTwo(n / 2))
  }

  function PowerOfTwo(y: nat): (n: nat)
    ensures IsPowerOfTwo(n) && n > 0
  {
    if y == 0 then 1 else 2 * PowerOfTwo(y - 1)
  }

  /** Of two powers of two the smaller divides the larger, and the quotient is one. */
  lemma {:induction false} PowersDivide(n: nat, m: nat)
    requires IsPowerOfTwo(n) && IsPowerOfTwo(m) && m <= n
    ensures n % m == 0 && IsPowerOfTwo(n / m)
    decreases m
  {
    if m > 1 {
      PowersDivide(n / 2, m / 2);
      var k := n / 2 / (m / 2);
      assert n / 2 == k * (m / 2);
      assert k * (m / 2) * 2 == k * m;
      QuotientIs(k, 0, m);
    }
  }

  lemma EvenRemainder(k: nat, m: nat)
    requires k % 2 == 0 && m % 2 == 0 && m > 0
    ensures k % m != 1
  {
    var q, h := k / m, m / 2;
    assert k == q * m + k % m;
    assert q * m == 2 * (q * h);
  }

  /** In particular the check is right if both counts are powers of two, and entries fill a page. */
  lemma MagicCheckRightForPowersOfTwo(fs: Config)
    requires fs.Sane() && fs.pageSize % fs.idSize == 0
    requires IsPowerOfTwo(PagesPerBlock(fs)) && IsPowerOfTwo(IdsPerPage(fs))
    ensures CheckMagicPossible(fs) <==> RoomForMagic(fs)
  {
    MagicCheckRightIffCounts(fs);
    var n, m := PagesPerBlock(fs), IdsPerPage(fs);
    if n >= m {
      PowersDivide(n, m);
      if n / m != 1 {
        EvenRemainder(n / m, m);
      }
    }
  }

  /** The layout comment's rule for page and block sizes. */
  predicate LayoutRule(fs: Config, y: nat) {
    y > 2 && fs.blockSize == fs.pageSize * PowerOfTwo(y)
  }

  /** The rule alone does not make the check right: 256 pages of 258 bytes do not fit, and it passes. */
  lemma LayoutRuleIsNotEnough()
    ensures var fs := Config(0, 258 * 256, 258, 2, 2, 0, 0);
            fs.Sane() && fs.pageSize % fs.idSize == 0 && LayoutRule(fs, 8) && CheckMagicPossible(fs) && !RoomForMagic(fs)
  {
    var fs := Config(0, 258 * 256, 258, 2, 2, 0, 0);
    assert PowerOfTwo(4) == 16;
    assert PowerOfTwo(8) == 256;
    assert PagesPerBlock(fs) == 256 && IdsPerPage(fs) == 129;
    assert LookupPages(fs) == 1;
  }

  /** Nor do 129 pages of 256 bytes, which fill their lookup page. */
  lemma MagicCheckCanBeWrong()
    ensures var fs := Config(0, 129 * 256, 256, 2, 2, 0, 0);
            fs.Sane() && fs.pageSize % fs.idSize == 0 && CheckMagicPossible(fs) && !RoomForMagic(fs)
  {
    var fs := Config(0, 129 * 256, 256, 2, 2, 0, 0);
    assert PagesPerBlock(fs) == 129 && IdsPerPage(fs) == 128;
    assert LookupPages(fs) == 1;
  }

  // ---------------------------------------------------------------- room for the entries

  /** The lookup pages of a block hold its entries. */
  predicate RoomForEntries(fs: Config)
    requires fs.Sane()
  {
    LookupMaxEntries(fs) * fs.idSize <= LookupPages(fs) * fs.pageSize
  }

  lemma InWholes(n: nat, m: nat)
    requires m > 0
    ensures n == n / m * m + n % m && n % m < m && (n < m ==> n / m == 0)
  {
    if n < m {
      QuotientIs(0, n, m);
    }
  }

  lemma TimesId(a: int, b: int, m: int, id: int)
    requires id > 0
    ensures a * id <= b * (m * id) <==> a <= b * m
  {
    assert b * (m * id) == b * m * id;
    if a <= b * m {
      assert (b * m - a) * id >= 0;
    } else {
      ProductsApart(b * m, a, id);
    }
  }

  /**
   When entries fill a page, a block has enough lookup pages for its entries if and only if they
   fit in one, or the pages left over when lookup pages are counted off are no more than these.
   */
  lemma RoomForEntriesIff(fs: Config)
    requires fs.Sane() && fs.pageSize % fs.idSize == 0
    ensures RoomForEntries(fs) <==>
              PagesPerBlock(fs) < IdsPerPage(fs) || PagesPerBlock(fs) % IdsPerPage(fs) <= PagesPerBlock(fs) / IdsPerPage(fs)
  {
    LookupPagesIs(fs);
    PageIs(fs);
    var n, m, l := PagesPerBlock(fs), IdsPerPage(fs), LookupPages(fs);
    TimesId(n - l, l, m, fs.idSize);
    InWholes(n, m);
    if n >= m {
      AtLeast(n, 1, m);
    }
  }

  /** The layout rule does not make them enough: of 255 entries of the example above, 129 have a place. */
  lemma EntriesMayNotFit()
    ensures var fs := Config(0, 258 * 256, 258, 2, 2, 0, 0);
            fs.Sane() && LayoutRule(fs, 8) && !RoomForEntries(fs) && LookupMaxEntries(fs) == 255 && LookupPages(fs) * IdsPerPage(fs) == 129
  {
    var fs := Config(0, 258 * 256, 258, 2, 2, 0, 0);
    assert PowerOfTwo(4) == 16;
    assert PowerOfTwo(8) == 256;
    assert PagesPerBlock(fs) == 256 && IdsPerPage(fs) == 129;
    assert LookupPages(fs) == 1;
  }
}
