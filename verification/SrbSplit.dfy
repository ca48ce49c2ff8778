/** Splitting an SRB into blkif requests (scsifilt/datapath.c).

    A transfer of `n` sectors between the disk and a data buffer becomes a list of
    requests of at most eleven page segments each.  A buffer that is aligned to the
    sector size is handed to the back end where it is; any other goes through page
    aligned bounce buffers.
  */
module SrbSplit {
  import opened Bits
  import opened Numbers
  import opened Blkif

  const PAGE: int := 4096

  /** Where a sector of data sits in physical memory. */
  datatype Place = Place(pfn: int, sector: int)

  datatype Piece = Piece(start: int, bytes: int, fragments: seq<Fragment>)

  /** Truncation to uint8_t. */
  function U8(x: int): int {
    x % 256
  }

  /** Truncation to a 32-bit unsigned. */
  function U32(x: int): int {
    x % 0x1_0000_0000
  }

  /** A sector size that the driver can work with: a power of two, at most a page. */
  predicate SectorSize(s: int) {
    IsPow2(s) && s <= PAGE
  }

  function PerPage(s: int): int
    requires s > 0
  {
    PAGE / s
  }

  lemma SectorsFillPage(s: int)
    requires SectorSize(s)
    ensures s > 0 && PerPage(s) >= 1 && PAGE == s * PerPage(s)
  {
    var k := Exponent(s);
    assert Pow2(12) == PAGE by {
      assert Pow2(4) == 16;
      Pow2Sum(4, 4);
      Pow2Sum(8, 4);
    }
    if k > 12 {
      Pow2Monotonic(13, k);
    }
    Pow2Sum(k, 12 - k);
    var q := Pow2(12 - k);
    assert PAGE == s * q;
    RemainderUnique(PAGE, s, q, 0);
  }

  // ------------------------------------------------------------ meaning of a request list

  /** The sectors that a fragment describes. */
  function Sectors(f: Fragment): seq<Place> {
    if f.last < f.start then [] else seq(f.last - f.start + 1, i => Place(f.pfn, f.start + i))
  }

  function Places(fs: seq<Fragment>): seq<Place> {
    if fs == [] then [] else Places(fs[..|fs| - 1]) + Sectors(fs[|fs| - 1])
  }

  /** One sector of the transfer: where it is on disk and where it is in memory. */
  datatype Move = Move(sector: int, place: Place)

  function Moves(p: Piece): seq<Move> {
    var w := Places(p.fragments);
    seq(|w|, i requires 0 <= i < |w| => Move(p.start + i, w[i]))
  }

  function Transfer(ps: seq<Piece>): seq<Move> {
    if ps == [] then [] else Transfer(ps[..|ps| - 1]) + Moves(ps[|ps| - 1])
  }

  // ------------------------------------------------------------ where the data belongs

  /** A locked-down buffer: the address of its first page, and the frame of each page. */
  datatype Mdl = Mdl(startVa: int, pfns: seq<int>)

  ghost predicate Covers(m: Mdl, va: int, bytes: int) {
    m.startVa % PAGE == 0 && 0 <= m.startVa <= va && va + bytes <= m.startVa + PAGE * |m.pfns|
  }

  /** The frame that backs a virtual address (mdl_va_to_pfn). */
  function VaToPfn(m: Mdl, va: int): int
    requires Covers(m, va, 1)
  {
    m.pfns[(va - m.startVa) / PAGE]
  }

  /** Page `k` of the buffer backs the addresses from its own start up to the next page. */
  lemma PageBacks(m: Mdl, k: nat, offset: int)
    requires m.startVa % PAGE == 0 && m.startVa >= 0 && k < |m.pfns| && 0 <= offset < PAGE
    ensures Covers(m, m.startVa + k * PAGE + offset, 1) && VaToPfn(m, m.startVa + k * PAGE + offset) == m.pfns[k]
  {
  }

  /** The place of the `k`th sector of a buffer that is handed over where it is. */
  function Direct(m: Mdl, buf: int, s: int, k: int): Place
    requires s > 0 && Covers(m, buf + k * s, 1)
  {
    Place(VaToPfn(m, buf + k * s), ((buf + k * s) % PAGE) / s)
  }

  /** The place of the `k`th sector in a page aligned buffer whose pages have the given frames. */
  function InBounce(frame: int -> int, s: int, k: int): Place
    requires s > 0 && PerPage(s) > 0
  {
    Place(frame(k / PerPage(s)), k % PerPage(s))
  }

  /** The first `n` sectors from the `offset`th, where they are. */
  ghost function DirectRun(m: Mdl, buf: int, s: int, offset: int, n: nat): seq<Place>
    requires s > 0 && offset >= 0 && Covers(m, buf, (offset + n) * s)
  {
    seq(n, i requires 0 <= i < n => CoversPart(m, buf, s, offset + n, offset + i); Direct(m, buf, s, offset + i))
  }

  ghost function BounceRun(frame: int -> int, s: int, n: nat): seq<Place>
    requires s > 0 && PerPage(s) > 0
  {
    seq(n, i => InBounce(frame, s, i))
  }

  lemma CoversPart(m: Mdl, buf: int, s: int, n: int, k: int)
    requires s > 0 && 0 <= k < n && Covers(m, buf, n * s)
    ensures Covers(m, buf + k * s, 1)
  {
    assert k * s >= 0;
    assert (k + 1) * s <= n * s;
    assert (k + 1) * s == k * s + s;
  }

  // ------------------------------------------------------------ arithmetic of pages and sectors

  lemma ScaledDivision(s: int, p: int, x: int)
    requires s > 0 && p > 0 && x >= 0
    ensures (s * x) / (s * p) == x / p && (s * x) % (s * p) == s * (x % p)
  {
    var q, r := x / p, x % p;
    assert x == p * q + r;
    assert s * x == (s * p) * q + s * r;
    assert s * r < s * p;
    assert s * r >= 0;
    RemainderUnique(s * x, s * p, q, s * r);
  }

  lemma QuotientExact(s: int, r: int)
    requires s > 0 && r >= 0
    ensures (s * r) / s == r
  {
    RemainderUnique(s * r, s, r, 0);
  }

  /** Sectors that fit in the rest of a page lie one after another in that page. */
  lemma WithinPage(x: int, i: int, p: int)
    requires p > 0 && x >= 0 && 0 <= i && x % p + i < p
    ensures (x + i) / p == x / p && (x + i) % p == x % p + i
  {
    RemainderUnique(x + i, p, x / p, x % p + i);
  }

  /** The sector number of a byte address that is a multiple of the sector size. */
  lemma SectorOf(buf: int, s: int, k: int)
    requires s > 0 && buf >= 0 && buf % s == 0 && k >= 0
    ensures buf + k * s == s * (buf / s + k)
  {
    assert buf == s * (buf / s);
  }

  lemma {:induction false} DirectPlace(m: Mdl, buf: int, s: int, k: int)
    requires SectorSize(s) && buf >= 0 && buf % s == 0 && k >= 0
    requires s > 0 && PerPage(s) > 0 && Covers(m, buf + k * s, 1)
    ensures var x, p := buf / s + k, PerPage(s);
      && 0 <= x / p - m.startVa / PAGE < |m.pfns|
      && Direct(m, buf, s, k) == Place(m.pfns[x / p - m.startVa / PAGE], x % p)
      && VaToPfn(m, buf + k * s) == m.pfns[x / p - m.startVa / PAGE]
  {
    SectorsFillPage(s);
    var x, p := buf / s + k, PerPage(s);
    SectorOf(buf, s, k);
    ScaledDivision(s, p, x);
    QuotientExact(s, x % p);
    var va := buf + k * s;
    assert va / PAGE == x / p;
  }

  /** The sector at which an aligned address starts within its page. */
  function PageOffset(va: int, s: int): int
    requires s > 0
  {
    (va % PAGE) / s
  }

  lemma PageOffsetIs(buf: int, s: int, k: int)
    requires SectorSize(s) && buf >= 0 && buf % s == 0 && k >= 0 && s > 0 && PerPage(s) > 0
    ensures PageOffset(buf + k * s, s) == (buf / s + k) % PerPage(s)
  {
    SectorsFillPage(s);
    SectorOf(buf, s, k);
    var x, p := buf / s + k, PerPage(s);
    ScaledDivision(s, p, x);
    QuotientExact(s, x % p);
  }

  /** Sector numbers within a page fit the bytes that carry them: either a page has no more
      than 256 sectors, or the run (if any) does not reach sector 256 of its page. */
  predicate FitsBytes(s: int, pageOffset: int, n: int)
    requires s > 0
  {
    n == 0 || PerPage(s) <= 256 || pageOffset + n <= 256
  }

  /** The fragment for `count` sectors of one page. */
  lemma {:induction false} DirectSegment(m: Mdl, buf: int, s: int, k: int, count: int)
    requires SectorSize(s) && buf >= 0 && buf % s == 0 && k >= 0 && count > 0 && s > 0 && PerPage(s) > 0
    requires Covers(m, buf, (k + count) * s)
    requires (buf / s + k) % PerPage(s) + count <= PerPage(s)
    requires (buf / s + k) % PerPage(s) + count <= 256
    ensures Covers(m, buf + k * s, 1)
    ensures var o := (buf / s + k) % PerPage(s);
      Sectors(Fragment(VaToPfn(m, buf + k * s), U8(o), U8(count + o - 1))) == DirectRun(m, buf, s, k, count)
  {
    CoversPart(m, buf, s, k + count, k);
    var x, p := buf / s + k, PerPage(s);
    var o := x % p;
    DirectPlace(m, buf, s, k);
    var f := Fragment(VaToPfn(m, buf + k * s), U8(o), U8(count + o - 1));
    assert f.start == o && f.last == count + o - 1;
    forall i | 0 <= i < count ensures Sectors(f)[i] == DirectRun(m, buf, s, k, count)[i] {
      DirectShift(m, buf, s, k, i, k + count);
    }
  }

  lemma DirectShift(m: Mdl, buf: int, s: int, k: int, i: int, n: int)
    requires SectorSize(s) && buf >= 0 && buf % s == 0 && k >= 0 && s > 0 && PerPage(s) > 0
    requires 0 <= i && k + i < n && Covers(m, buf, n * s)
    requires (buf / s + k) % PerPage(s) + i < PerPage(s)
    ensures Covers(m, buf + k * s, 1) && Covers(m, buf + (k + i) * s, 1)
    ensures Direct(m, buf, s, k + i) == Place(VaToPfn(m, buf + k * s), (buf / s + k) % PerPage(s) + i)
  {
    hide SectorSize, Covers, Direct, VaToPfn, PerPage;
    CoversPart(m, buf, s, n, k);
    CoversPart(m, buf, s, n, k + i);
    DirectPlace(m, buf, s, k);
    DirectPlace(m, buf, s, k + i);
    WithinPage(buf / s + k, i, PerPage(s));
  }

  lemma DirectRunConcat(m: Mdl, buf: int, s: int, offset: int, a: nat, b: nat)
    requires s > 0 && offset >= 0 && Covers(m, buf, (offset + a + b) * s) && Covers(m, buf, (offset + a) * s)
    ensures DirectRun(m, buf, s, offset, a) + DirectRun(m, buf, s, offset + a, b) == DirectRun(m, buf, s, offset, a + b)
  {
  }

  lemma CoversLess(m: Mdl, buf: int, s: int, n: int, k: int)
    requires s > 0 && 0 <= k <= n && Covers(m, buf, n * s)
    ensures Covers(m, buf, k * s)
  {
    assert k * s <= n * s;
  }

  lemma PlacesAppend(fs: seq<Fragment>, f: Fragment)
    ensures Places(fs + [f]) == Places(fs) + Sectors(f)
  {
    assert (fs + [f])[..|fs|] == fs;
  }

  lemma FewerSegments(a: int, b: int, p: int)
    requires p > 0 && a * p < b * p
    ensures a < b
  {
  }

  /** initialise_sfri_nonbounce: at most eleven fragments that describe exactly the sectors
      `offset` to `offset + n` of the buffer, in order. */
  method InitialiseDirect(offset: nat, n: nat, s: int, buf: int, m: Mdl) returns (fs: seq<Fragment>)
    requires SectorSize(s) && buf >= 0 && s > 0 && buf % s == 0 && Covers(m, buf, (offset + n) * s)
    requires PageOffset(buf + offset * s, s) + n <= MAX_SEGMENTS * PerPage(s)
    ensures |fs| <= MAX_SEGMENTS && (n > 0 ==> |fs| > 0)
    ensures forall f :: f in fs ==> 0 <= f.start < 256 && 0 <= f.last < 256
    ensures FitsBytes(s, PageOffset(buf + offset * s, s), n) ==> Places(fs) == DirectRun(m, buf, s, offset, n)
  {
    hide SectorSize, IsPow2, Covers, Direct, DirectRun, Places, Sectors, VaToPfn;
    SectorsFillPage(s);
    var perPage := PAGE / s;
    fs := [];
    var done := 0;
    var sectorPageOff := ((buf + offset * s) % PAGE) / s;
    ghost var first, x := sectorPageOff, buf / s + offset;
    PageOffsetIs(buf, s, offset);
    CoversLess(m, buf, s, offset + n, offset);
    NoPlaces(m, buf, s, offset);
    while done < n
      invariant 0 <= done <= n
      invariant done < n ==> sectorPageOff == (x + done) % perPage
      invariant Filled(|fs|, perPage, first, done, n, sectorPageOff)
      invariant forall f :: f in fs ==> 0 <= f.start < 256 && 0 <= f.last < 256
      invariant Covers(m, buf, (offset + done) * s)
      invariant FitsBytes(s, first, n) ==> Places(fs) == DirectRun(m, buf, s, offset, done)
    {
      var count := Min(n - done, perPage - sectorPageOff);
      FillMore(|fs|, perPage, first, done, n, sectorPageOff);
      assert |fs| < MAX_SEGMENTS;
      CoversLess(m, buf, s, offset + n, offset + done + count);
      CoversPart(m, buf, s, offset + n, offset + done);
      var f := Fragment(VaToPfn(m, buf + (offset + done) * s), U8(sectorPageOff), U8(count + sectorPageOff - 1));
      if FitsBytes(s, first, n) {
        DirectSegment(m, buf, s, offset + done, count);
        DirectRunConcat(m, buf, s, offset, done, count);
        PlacesAppend(fs, f);
      }
      NextPage(x + done, perPage, count);
      fs := fs + [f];
      done := done + count;
      sectorPageOff := 0;
    }
  }

  lemma NoPlaces(m: Mdl, buf: int, s: int, offset: int)
    requires s > 0 && offset >= 0 && Covers(m, buf, offset * s)
    ensures Places([]) == DirectRun(m, buf, s, offset, 0)
  {
  }

  /** After `segments` segments, `done` of `n` sectors are described: the first segment starts
      at sector `first` of its page and each one but the last fills its page. */
  ghost predicate Filled(segments: int, perPage: int, first: int, done: int, n: int, pageOff: int) {
    && 0 <= segments <= MAX_SEGMENTS
    && (done == 0 ==> segments == 0 && pageOff == first)
    && (done > 0 ==> segments > 0 && pageOff == 0)
    && (done < n ==> segments * perPage == (if done == 0 then 0 else first + done))
  }

  lemma {:induction false} FillMore(segments: int, perPage: int, first: int, done: int, n: int, pageOff: int)
    requires Filled(segments, perPage, first, done, n, pageOff)
    requires 0 <= done < n && 0 <= first < perPage && first + n <= MAX_SEGMENTS * perPage
    ensures segments < MAX_SEGMENTS && 0 <= pageOff < perPage
    ensures var count := Min(n - done, perPage - pageOff);
      count > 0 && Filled(segments + 1, perPage, first, done + count, n, 0)
  {
    FewerSegments(segments, MAX_SEGMENTS, perPage);
    assert (segments + 1) * perPage == segments * perPage + perPage;
  }

  /** A run that fills its page ends on a page boundary. */
  lemma NextPage(x: int, p: int, count: int)
    requires p > 0 && x >= 0
    ensures x % p + count == p ==> (x + count) % p == 0
  {
    if x % p + count == p {
      var q := x / p;
      assert x + count == p * (q + 1);
      RemainderUnique(x + count, p, q + 1, 0);
    }
  }

  // ------------------------------------------------------------ bounced requests

  lemma {:induction false} BounceSegment(frame: int -> int, s: int, k: int, count: int)
    requires s > 0 && PerPage(s) > 0 && k >= 0 && 0 < count <= PerPage(s) && count <= 256 && k % PerPage(s) == 0
    ensures var f := Fragment(frame(k / PerPage(s)), 0, U8(U8(count) - 1));
      f.last == count - 1 && BounceRun(frame, s, k) + Sectors(f) == BounceRun(frame, s, k + count)
  {
    var f := Fragment(frame(k / PerPage(s)), 0, U8(U8(count) - 1));
    forall i | 0 <= i < count ensures InBounce(frame, s, k + i) == Sectors(f)[i] {
      WithinPage(k, i, PerPage(s));
    }
  }

  /** initialise_sfri_bounce: at most eleven fragments that describe the first `n` sectors of
      the page aligned bounce buffer. */
  method InitialiseBounce(n: nat, s: int, frame: int -> int) returns (fs: seq<Fragment>)
    requires SectorSize(s) && s > 0 && PerPage(s) > 0 && n <= MAX_SEGMENTS * PerPage(s)
    ensures |fs| <= MAX_SEGMENTS && (n > 0 ==> |fs| > 0)
    ensures forall f :: f in fs ==> 0 <= f.start < 256 && 0 <= f.last < 256
    ensures FitsBytes(s, 0, n) ==> Places(fs) == BounceRun(frame, s, n)
  {
    hide SectorSize, IsPow2, Places, Sectors, InBounce;
    SectorsFillPage(s);
    var perPage := PAGE / s;
    fs := [];
    var done := 0;
    assert Places([]) == BounceRun(frame, s, 0) by { NoBouncePlaces(frame, s); }
    while done < n
      invariant 0 <= done <= n
      invariant done < n ==> done % perPage == 0
      invariant Filled(|fs|, perPage, 0, done, n, 0)
      invariant forall f :: f in fs ==> 0 <= f.start < 256 && 0 <= f.last < 256
      invariant FitsBytes(s, 0, n) ==> Places(fs) == BounceRun(frame, s, done)
    {
      var count := Min(n - done, perPage);
      FillMore(|fs|, perPage, 0, done, n, 0);
      assert |fs| < MAX_SEGMENTS;
      PageOfBounce(s, perPage, done);
      var f := Fragment(frame((done * s) / PAGE), 0, U8(U8(count) - 1));
      if FitsBytes(s, 0, n) {
        BounceSegment(frame, s, done, count);
        PlacesAppend(fs, f);
      }
      NextPage(done, perPage, count);
      fs := fs + [f];
      done := done + count;
    }
  }

  lemma NoBouncePlaces(frame: int -> int, s: int)
    requires s > 0 && PerPage(s) > 0
    ensures Places([]) == BounceRun(frame, s, 0)
  {
  }

  lemma PageOfBounce(s: int, p: int, k: int)
    requires s > 0 && p > 0 && k >= 0 && PAGE == s * p
    ensures (k * s) / PAGE == k / p
  {
    assert k * s == s * k;
    ScaledDivision(s, p, k);
  }

  // ------------------------------------------------------------ counting requests

  /** `r` is the number of groups of at most `b` that `a` things make. */
  ghost predicate Groups(r: int, a: int, b: int) {
    (r - 1) * b < a <= r * b
  }

  lemma GroupsUnique(r: int, q: int, a: int, b: int)
    requires b > 0 && Groups(r, a, b) && Groups(q, a, b)
    ensures r == q
  {
    FewerSegments(r - 1, q, b);
    FewerSegments(q - 1, r, b);
  }

  lemma RoundUp(a: int, b: int)
    requires b > 0 && a >= 0
    ensures Groups((a + b - 1) / b, a, b)
  {
    var r := (a + b - 1) / b;
    assert a + b - 1 == b * r + (a + b - 1) % b;
    assert r * b == b * r;
    assert (r - 1) * b == b * r - b;
  }

  lemma GroupsOfGroups(r: int, q: int, a: int, b: int, c: int)
    requires b > 0 && c > 0 && Groups(q, a, b) && Groups(r, q, c)
    ensures Groups(r, a, c * b)
  {
    assert (r - 1) * c <= q - 1;
    MulLe((r - 1) * c, q - 1, b);
    MulLe(q, r * c, b);
    MulAssoc(r - 1, c, b);
    MulAssoc(r, c, b);
  }

  lemma MulLe(a: int, b: int, p: int)
    requires a <= b && p > 0
    ensures a * p <= b * p
  {
  }

  lemma MulAssoc(a: int, b: int, c: int)
    ensures (a * b) * c == a * (b * c)
  {
  }

  lemma GroupsScaled(r: int, a: int, b: int, s: int)
    requires s > 0 && Groups(r, s * a, s * b)
    ensures Groups(r, a, b)
  {
    assert (r - 1) * (s * b) == s * ((r - 1) * b);
    assert r * (s * b) == s * (r * b);
    FewerScaled((r - 1) * b, a, s);
    if a > r * b {
      FewerScaled(r * b, a, s);
      MulLe(r * b + 1, a, s);
      assert false;
    }
  }

  lemma FewerScaled(a: int, b: int, s: int)
    requires s > 0
    ensures s * a < s * b <==> a < b
  {
  }

  /** A buffer that is not aligned to the sector size is bounced. */
  predicate Bounced(buf: nat, s: int)
    requires s > 0
  {
    And(buf, s - 1) != 0
  }

  lemma BouncedIffUnaligned(buf: nat, s: int)
    requires SectorSize(s) && s > 0
    ensures Bounced(buf, s) <==> buf % s != 0
  {
    var k := Exponent(s);
    AndLowMask(buf, k);
  }

  /** The sector of its page at which the data handed to the back end starts. */
  function FirstSector(buf: nat, s: int): int
    requires s > 0
  {
    if Bounced(buf, s) then 0 else (buf % PAGE) / s
  }

  /** count_requests_for_srb */
  function CountRequests(n: nat, s: int, buf: nat): int
    requires s > 0
  {
    var byteCount := U32(s * n);
    var nrPages := if Bounced(buf, s) then U32(byteCount + PAGE - 1) / PAGE
                   else U32((byteCount + buf % PAGE + PAGE - 1) / PAGE);
    (nrPages + MAX_SEGMENTS - 1) / MAX_SEGMENTS
  }

  /** The bytes of the transfer, rounded up to a page, fit 32 bits (the class driver is told to send at most
      87 pages at once). */
  predicate Moderate(n: nat, s: int) {
    s * n + PAGE <= 0x1_0000_0000
  }

  lemma PagesInGroups(sectors: nat, s: int, p: int)
    requires s > 0 && p > 0 && PAGE == s * p
    ensures Groups(((s * sectors + PAGE - 1) / PAGE + MAX_SEGMENTS - 1) / MAX_SEGMENTS, sectors, MAX_SEGMENTS * p)
  {
    var bytes := s * sectors;
    assert bytes >= 0;
    var pages := (bytes + PAGE - 1) / PAGE;
    RoundUp(bytes, PAGE);
    GroupsScaled(pages, sectors, p, s);
    RoundUp(pages, MAX_SEGMENTS);
    GroupsOfGroups((pages + MAX_SEGMENTS - 1) / MAX_SEGMENTS, pages, sectors, p, MAX_SEGMENTS);
  }

  /** The bytes from the start of the first page to the end of the data. */
  lemma BytesFromPage(n: nat, s: int, buf: nat)
    requires SectorSize(s) && s > 0 && !Bounced(buf, s)
    ensures FirstSector(buf, s) >= 0 && s * n + buf % PAGE == s * (n + FirstSector(buf, s))
  {
    hide And, IsPow2, SectorSize;
    SectorsFillPage(s);
    BouncedIffUnaligned(buf, s);
    var p := PerPage(s);
    SectorOf(buf, s, 0);
    ScaledDivision(s, p, buf / s);
    QuotientExact(s, (buf / s) % p);
  }

  lemma U32Small(x: int)
    requires 0 <= x < 0x1_0000_0000
    ensures U32(x) == x
  {
  }

  lemma CountIsGroups(n: nat, s: int, buf: nat)
    requires SectorSize(s) && s > 0 && PerPage(s) > 0 && Moderate(n, s)
    ensures Groups(CountRequests(n, s, buf), n + FirstSector(buf, s), MAX_SEGMENTS * PerPage(s))
  {
    hide Bounced, Groups, SectorSize, U32;
    SectorsFillPage(s);
    var o, bytes := FirstSector(buf, s), s * n;
    assert 0 <= bytes;
    U32Small(bytes);
    if Bounced(buf, s) {
      U32Small(bytes + PAGE - 1);
      PagesInGroups(n, s, PerPage(s));
    } else {
      BytesFromPage(n, s, buf);
      U32Small((bytes + buf % PAGE + PAGE - 1) / PAGE);
      PagesInGroups(n + o, s, PerPage(s));
    }
  }

  // ------------------------------------------------------------ the whole SRB

  /** Disk sectors from `start` on, matched with places in order. */
  ghost function Plan(start: int, w: seq<Place>): seq<Move> {
    seq(|w|, k requires 0 <= k < |w| => Move(start + k, w[k]))
  }

  lemma PlanConcat(start: int, a: seq<Place>, b: seq<Place>)
    ensures Plan(start, a) + Plan(start + |a|, b) == Plan(start, a + b)
  {
  }

  /** The sectors of a transfer that is bounced through one buffer per request. */
  ghost function BouncedRun(frames: int -> (int -> int), s: int, n: nat): seq<Place>
    requires s > 0 && PerPage(s) > 0
  {
    var group := MAX_SEGMENTS * PerPage(s);
    seq(n, k => InBounce(frames(k / group), s, k % group))
  }

  /** Where each sector of the transfer belongs. */
  ghost function Wanted(buf: nat, m: Mdl, frames: int -> (int -> int), s: int, n: nat): seq<Place>
    requires s > 0 && PerPage(s) > 0 && Covers(m, buf, n * s)
  {
    if Bounced(buf, s) then BouncedRun(frames, s, n) else DirectRun(m, buf, s, 0, n)
  }

  /** After `requests` requests, `done` of `n` sectors are covered; a request holds `group`
      sectors, the first one fewer by `first`. */
  ghost predicate Covered(requests: int, group: int, first: int, done: int, n: int, off: int) {
    && 0 <= requests
    && (done == 0 ==> requests == 0 && off == first)
    && (done > 0 ==> requests > 0 && off == 0)
    && (done < n ==> requests * group == (if done == 0 then 0 else first + done))
    && (done == n && n > 0 ==> Groups(requests, first + n, group))
  }

  lemma {:induction false} CoverMore(requests: int, group: int, first: int, done: int, n: int, off: int)
    requires Covered(requests, group, first, done, n, off)
    requires 0 <= done < n && 0 <= first < group
    ensures var count := Min(n - done, group - off);
      && count > 0 && Covered(requests + 1, group, first, done + count, n, 0)
      && (done > 0 ==> group <= first + done)
  {
    assert (requests + 1) * group == requests * group + group;
    assert (requests + 1 - 1) * group == requests * group;
    if requests > 0 {
      MulLe(1, requests, group);
    }
  }

  /** A request after the first starts on a page boundary. */
  lemma StartsOnPage(buf: nat, s: int, p: int, requests: int, first: int, done: int)
    requires p > 0 && s > 0 && done >= 0 && requests >= 0 && first == (buf / s) % p
    requires requests * (MAX_SEGMENTS * p) == first + done
    ensures (buf / s + done) % p == 0
  {
    var q := (buf / s) / p;
    assert buf / s == p * q + first;
    var t := requests * MAX_SEGMENTS;
    assert requests * (MAX_SEGMENTS * p) == t * p;
    assert buf / s + done == p * (q + t);
    RemainderUnique(buf / s + done, p, q + t, 0);
  }

  lemma BouncedRunConcat(frames: int -> (int -> int), s: int, requests: int, done: nat, count: nat)
    requires s > 0 && PerPage(s) > 0 && requests >= 0
    requires requests * (MAX_SEGMENTS * PerPage(s)) == done && count <= MAX_SEGMENTS * PerPage(s)
    ensures BouncedRun(frames, s, done) + BounceRun(frames(requests), s, count) == BouncedRun(frames, s, done + count)
  {
    var group := MAX_SEGMENTS * PerPage(s);
    forall i | 0 <= i < count
      ensures InBounce(frames((done + i) / group), s, (done + i) % group) == InBounce(frames(requests), s, i)
    {
      assert done + i == group * requests + i;
      RemainderUnique(done + i, group, requests, i);
    }
  }

  lemma TransferAppend(ps: seq<Piece>, p: Piece)
    ensures Transfer(ps + [p]) == Transfer(ps) + Moves(p)
  {
    assert (ps + [p])[..|ps|] == ps;
  }

  function TotalBytes(ps: seq<Piece>): int {
    if ps == [] then 0 else TotalBytes(ps[..|ps| - 1]) + ps[|ps| - 1].bytes
  }

  lemma TotalBytesAppend(ps: seq<Piece>, p: Piece)
    ensures TotalBytes(ps + [p]) == TotalBytes(ps) + p.bytes
  {
    assert (ps + [p])[..|ps|] == ps;
  }

  /** What is promised of a request: one to eleven segments, sector numbers that fit a byte, something to do. */
  ghost predicate PieceBounds(p: Piece) {
    && 1 <= |p.fragments| <= MAX_SEGMENTS && 0 < p.bytes
    && (forall f :: f in p.fragments ==> 0 <= f.start < 256 && 0 <= f.last < 256)
  }

  /** The body of the loop of initialise_requests: one request, bounced or direct. */
  method InitialisePiece(start: int, done: nat, count: nat, s: int, buf: nat, m: Mdl, frame: int -> int)
    returns (p: Piece)
    requires SectorSize(s) && s > 0 && PerPage(s) > 0 && count > 0
    requires Covers(m, buf, (done + count) * s)
    requires Bounced(buf, s) ==> count <= MAX_SEGMENTS * PerPage(s)
    requires !Bounced(buf, s) ==> PageOffset(buf + done * s, s) + count <= MAX_SEGMENTS * PerPage(s)
    ensures p.start == start + done && p.bytes == s * count && PieceBounds(p)
    ensures Bounced(buf, s) && FitsBytes(s, 0, count) ==> Places(p.fragments) == BounceRun(frame, s, count)
    ensures !Bounced(buf, s) && FitsBytes(s, PageOffset(buf + done * s, s), count) ==>
              Places(p.fragments) == DirectRun(m, buf, s, done, count)
  {
    BouncedIffUnaligned(buf, s);
    hide And, IsPow2, SectorSize, Places, DirectRun, BounceRun, Covers;
    var fs;
    if Bounced(buf, s) {
      fs := InitialiseBounce(count, s, frame);
    } else {
      fs := InitialiseDirect(done, count, s, buf, m);
    }
    p := Piece(start + done, s * count, fs);
  }

  /** Every bounced request but the last fills its bounce buffer. */
  ghost predicate BouncePieces(start: int, s: int, n: int, ps: seq<Piece>)
    requires s > 0
  {
    forall g :: 0 <= g < |ps| ==>
      && g * (MAX_SEGMENTS * PerPage(s)) < n
      && ps[g].start == start + g * (MAX_SEGMENTS * PerPage(s))
      && ps[g].bytes == s * Min(n - g * (MAX_SEGMENTS * PerPage(s)), MAX_SEGMENTS * PerPage(s))
  }

  /** The requests follow each other on disk, from sector `start` over `done` sectors. */
  ghost predicate Consecutive(start: int, s: int, done: int, ps: seq<Piece>)
    requires s > 0
  {
    && (ps == [] ==> done == 0)
    && (ps != [] ==> ps[0].start == start && ps[|ps| - 1].start + ps[|ps| - 1].bytes / s == start + done)
    && (forall k :: 0 <= k < |ps| - 1 ==> ps[k + 1].start == ps[k].start + ps[k].bytes / s)
  }

  lemma NoneConsecutive(start: int, s: int)
    requires s > 0
    ensures Consecutive(start, s, 0, [])
  {
  }

  lemma ConsecutiveAppend(start: int, s: int, done: nat, count: nat, ps: seq<Piece>, p: Piece)
    requires s > 0 && Consecutive(start, s, done, ps) && p.start == start + done && p.bytes == s * count
    ensures Consecutive(start, s, done + count, ps + [p])
  {
    QuotientExact(s, count);
  }

  /** initialise_requests.  Bounce buffers can be had for `available` requests. */
  method InitialiseRequests(start: int, n: nat, s: int, buf: nat, m: Mdl, frames: int -> (int -> int), available: nat)
    returns (ok: bool, ps: seq<Piece>)
    requires SectorSize(s) && s > 0 && PerPage(s) > 0 && Covers(m, buf, n * s)
    ensures !ok ==> Bounced(buf, s) && available * (MAX_SEGMENTS * PerPage(s)) < n
    ensures Bounced(buf, s) ==> |ps| <= available
    ensures ok && n > 0 ==> Groups(|ps|, FirstSector(buf, s) + n, MAX_SEGMENTS * PerPage(s))
    ensures n == 0 ==> ok && ps == []
    ensures forall p :: p in ps ==> PieceBounds(p)
    ensures ok ==> TotalBytes(ps) == s * n && Consecutive(start, s, n, ps)
    ensures Bounced(buf, s) ==> BouncePieces(start, s, n, ps)
    ensures ok && FitsBytes(s, FirstSector(buf, s), n) ==> Transfer(ps) == Plan(start, Wanted(buf, m, frames, s, n))
  {
    hide SectorSize, IsPow2, And, Covers, Places, Plan, DirectRun, BouncedRun, BounceRun, Groups, PieceBounds,
      Transfer, TotalBytes,
      Wanted, FitsBytes, Consecutive;
    NoneConsecutive(start, s);
    BouncedIffUnaligned(buf, s);
    SectorsFillPage(s);
    var perPage := PAGE / s;
    ps := [];
    var done := 0;
    var off := if Bounced(buf, s) then 0 else (buf % PAGE) / s;
    ghost var first := off;
    if !Bounced(buf, s) {
      PageOffsetIs(buf, s, 0);
    }
    NothingYet(start, buf, m, frames, s, n);
    while done < n
      invariant 0 <= done <= n
      invariant Covered(|ps|, MAX_SEGMENTS * perPage, first, done, n, off)
      invariant forall p :: p in ps ==> PieceBounds(p)
      invariant Covers(m, buf, done * s)
      invariant TotalBytes(ps) == s * done && Consecutive(start, s, done, ps)
      invariant Bounced(buf, s) ==> BouncePieces(start, s, n, ps) && |ps| <= available
      invariant FitsBytes(s, first, n) ==> Transfer(ps) == Plan(start, Wanted(buf, m, frames, s, done))
    {
      var count := Min(n - done, MAX_SEGMENTS * perPage - off);
      CoverMore(|ps|, MAX_SEGMENTS * perPage, first, done, n, off);
      CoversLess(m, buf, s, n, done + count);
      if Bounced(buf, s) && |ps| >= available {
        return false, ps;
      }
      if !Bounced(buf, s) {
        PageOffsetIs(buf, s, done);
        if done > 0 {
          StartsOnPage(buf, s, perPage, |ps|, first, done);
        }
        assert PageOffset(buf + done * s, s) == off;
      }
      var p := InitialisePiece(start, done, count, s, buf, m, frames(|ps|));
      if FitsBytes(s, first, n) {
        FitsPiece(s, first, n, |ps|, done, off, count);
        PieceJoins(start, buf, m, frames, s, done, count, |ps|, ps, p);
      }
      TotalBytesAppend(ps, p);
      ConsecutiveAppend(start, s, done, count, ps, p);
      Distribute(s, done, count);
      ps := ps + [p];
      done := done + count;
      off := 0;
    }
    return true, ps;
  }

  lemma Distribute(s: int, a: int, b: int)
    ensures s * (a + b) == s * a + s * b
  {
  }

  /** If the whole transfer fits the byte fields, so does each request. */
  lemma FitsPiece(s: int, first: int, n: int, requests: int, done: int, off: int, count: int)
    requires s > 0 && FitsBytes(s, first, n) && 0 <= first
    requires Covered(requests, MAX_SEGMENTS * PerPage(s), first, done, n, off)
    requires 0 <= done && count <= n - done && done < n && (done > 0 ==> MAX_SEGMENTS * PerPage(s) <= first + done)
    ensures FitsBytes(s, off, count)
  {
  }

  lemma NothingYet(start: int, buf: nat, m: Mdl, frames: int -> (int -> int), s: int, n: nat)
    requires s > 0 && PerPage(s) > 0 && Covers(m, buf, n * s)
    ensures Covers(m, buf, 0 * s) && Transfer([]) == Plan(start, Wanted(buf, m, frames, s, 0)) && TotalBytes([]) == 0
  {
    assert 0 * s == 0;
    assert n * s >= 0;
  }

  /** One more request extends the transfer by exactly its sectors. */
  lemma PieceJoins(start: int, buf: nat, m: Mdl, frames: int -> (int -> int), s: int, done: nat, count: nat,
                   requests: int, ps: seq<Piece>, p: Piece)
    requires s > 0 && PerPage(s) > 0 && Covers(m, buf, done * s) && Covers(m, buf, (done + count) * s)
    requires Transfer(ps) == Plan(start, Wanted(buf, m, frames, s, done)) && p.start == start + done
    requires Bounced(buf, s) ==>
      && requests >= 0 && requests * (MAX_SEGMENTS * PerPage(s)) == done && count <= MAX_SEGMENTS * PerPage(s)
      && Places(p.fragments) == BounceRun(frames(requests), s, count)
    requires !Bounced(buf, s) ==> Places(p.fragments) == DirectRun(m, buf, s, done, count)
    ensures Transfer(ps + [p]) == Plan(start, Wanted(buf, m, frames, s, done + count))
  {
    hide Covers, Bounced, BounceRun, Places, Transfer, InBounce, Direct;
    TransferAppend(ps, p);
    var a, b := Wanted(buf, m, frames, s, done), Places(p.fragments);
    assert |a| == done;
    assert Moves(p) == Plan(start + done, b);
    PlanConcat(start, a, b);
    if Bounced(buf, s) {
      BouncedRunConcat(frames, s, requests, done, count);
    } else {
      DirectRunConcat(m, buf, s, 0, done, count);
    }
  }

  /** filter_process_irp allocates exactly as many requests as initialise_requests fills,
      unless a transfer of no sectors starts inside a page. */
  lemma CountMatches(n: nat, s: int, buf: nat, used: int)
    requires SectorSize(s) && s > 0 && PerPage(s) > 0 && Moderate(n, s)
    requires n > 0 ==> Groups(used, FirstSector(buf, s) + n, MAX_SEGMENTS * PerPage(s))
    requires n == 0 ==> used == 0
    ensures used == CountRequests(n, s, buf) <==> n > 0 || Bounced(buf, s) || buf % PAGE == 0
  {
    hide Bounced, SectorSize;
    CountIsGroups(n, s, buf);
    var c, p := CountRequests(n, s, buf), PerPage(s);
    if n > 0 {
      GroupsUnique(used, c, n + FirstSector(buf, s), MAX_SEGMENTS * p);
    } else if !Bounced(buf, s) {
      BytesFromPage(0, s, buf);
      assert s * 0 == 0;
      var o := FirstSector(buf, s);
      assert buf % PAGE == s * o;
      assert o == 0 <==> s * o == 0;
      if c == 0 {
        assert o <= c * (MAX_SEGMENTS * p);
      }
    } else {
      assert (c - 1) * (MAX_SEGMENTS * p) < 0;
      assert 0 <= c * (MAX_SEGMENTS * p);
      FewerSegments(c - 1, 0, MAX_SEGMENTS * p);
    }
  }

  /** A transfer of no sectors from the middle of a page is counted as one request. */
  lemma EmptyTransferMiscounted()
    ensures SectorSize(512) && !Bounced(512, 512) && CountRequests(0, 512, 512) == 1
  {
    assert IsPow2(512) by {
      assert Pow2(3) == 8;
      Pow2Sum(3, 3);
      Pow2Sum(6, 3);
      Pow2IsPow2(9);
    }
    BouncedIffUnaligned(512, 512);
  }

  /** With 8-byte sectors a page has more sectors than a byte can number. */
  lemma ByteFieldsTooNarrow()
    ensures SectorSize(8) && PerPage(8) == 512 && !FitsBytes(8, 0, 257)
  {
  }

  lemma {:induction false} PlacesBelow256(fs: seq<Fragment>)
    requires forall f :: f in fs ==> f.last < 256
    ensures forall w :: w in Places(fs) ==> w.sector < 256
  {
    if fs != [] {
      PlacesBelow256(fs[..|fs| - 1]);
    }
  }

  lemma {:induction false} TransferBelow256(ps: seq<Piece>)
    requires forall p :: p in ps ==> PieceBounds(p)
    ensures forall x :: x in Transfer(ps) ==> x.place.sector < 256
  {
    if ps != [] {
      var p := ps[|ps| - 1];
      assert p in ps;
      PlacesBelow256(p.fragments);
      TransferBelow256(ps[..|ps| - 1]);
      forall x | x in Moves(p) ensures x.place.sector < 256 {
        var i :| 0 <= i < |Moves(p)| && Moves(p)[i] == x;
        assert x.place == Places(p.fragments)[i];
      }
    }
  }

  lemma BounceBeyond256(frames: int -> (int -> int), s: int, n: nat)
    requires s > 0 && PerPage(s) > 256 && n > 256
    ensures BouncedRun(frames, s, n)[256].sector == 256
  {
    var k: nat, g := 256, MAX_SEGMENTS * PerPage(s);
    RemainderUnique(k, g, 0, k);
    RemainderUnique(k, PerPage(s), 0, k);
    assert BouncedRun(frames, s, n)[k] == InBounce(frames(k / g), s, k % g);
  }

  lemma DirectBeyond256(buf: nat, m: Mdl, s: int, n: nat, k: nat)
    requires SectorSize(s) && s > 0 && PerPage(s) > 0 && buf % s == 0 && Covers(m, buf, n * s) && k < n
    requires 256 <= (buf / s) % PerPage(s) + k < PerPage(s)
    ensures DirectRun(m, buf, s, 0, n)[k].sector >= 256
  {
    hide SectorSize, Covers, Direct, PerPage;
    CoversPart(m, buf, s, n, k);
    DirectPlace(m, buf, s, k);
    WithinPage(buf / s, k, PerPage(s));
  }

  /** The sector that does not fit: sector 256 of the first page, or the first one past it. */
  lemma WantedBeyond256(buf: nat, m: Mdl, frames: int -> (int -> int), s: int, n: nat) returns (k: nat)
    requires SectorSize(s) && s > 0 && PerPage(s) > 0 && Covers(m, buf, n * s) && !FitsBytes(s, FirstSector(buf, s), n)
    ensures k < n && |Wanted(buf, m, frames, s, n)| == n && Wanted(buf, m, frames, s, n)[k].sector >= 256
  {
    hide And, SectorSize, Covers, Direct, InBounce, PerPage;
    BouncedIffUnaligned(buf, s);
    if Bounced(buf, s) {
      k := 256;
      BounceBeyond256(frames, s, n);
    } else {
      PageOffsetIs(buf, s, 0);
      var o := FirstSector(buf, s);
      k := if o >= 256 then 0 else 256 - o;
      DirectBeyond256(buf, m, s, n, k);
    }
  }

  /** The split preserves the meaning of the SRB exactly when the sector numbers fit their
      byte fields. */
  lemma MeaningIffFits(start: int, n: nat, s: int, buf: nat, m: Mdl, frames: int -> (int -> int), ps: seq<Piece>)
    requires SectorSize(s) && s > 0 && PerPage(s) > 0 && Covers(m, buf, n * s)
    requires forall p :: p in ps ==> PieceBounds(p)
    requires FitsBytes(s, FirstSector(buf, s), n) ==> Transfer(ps) == Plan(start, Wanted(buf, m, frames, s, n))
    ensures Transfer(ps) == Plan(start, Wanted(buf, m, frames, s, n)) <==> FitsBytes(s, FirstSector(buf, s), n)
  {
    if !FitsBytes(s, FirstSector(buf, s), n) {
      TransferBelow256(ps);
      hide Transfer, Wanted, PieceBounds, SectorSize;
      var k := WantedBeyond256(buf, m, frames, s, n);
      var w := Wanted(buf, m, frames, s, n);
      assert Plan(start, w)[k].place == w[k];
      assert Plan(start, w)[k] in Plan(start, w);
    }
  }

  // ------------------------------------------------------------ the split as a whole

  /** A read or write of `sectors` sectors between disk sector `start` and a locked-down buffer. */
  datatype Srb = Srb(write: bool, start: int, sectors: nat, sectorSize: nat, buffer: nat, mdl: Mdl)

  ghost predicate WellFormed(b: Srb) {
    && SectorSize(b.sectorSize) && b.sectorSize > 0 && PerPage(b.sectorSize) > 0
    && Covers(b.mdl, b.buffer, b.sectors * b.sectorSize)
  }

  ghost predicate Fits(b: Srb)
    requires WellFormed(b)
  {
    FitsBytes(b.sectorSize, FirstSector(b.buffer, b.sectorSize), b.sectors)
  }

  predicate IsBounced(b: Srb)
    requires b.sectorSize > 0
  {
    Bounced(b.buffer, b.sectorSize)
  }

  /** Where the sectors of the SRB belong. */
  ghost function Targets(b: Srb, frames: int -> (int -> int)): seq<Place>
    requires WellFormed(b)
  {
    Wanted(b.buffer, b.mdl, frames, b.sectorSize, b.sectors)
  }

  /** The requests of a bounced transfer, one bounce buffer each. */
  ghost predicate Buffered(b: Srb, ps: seq<Piece>)
    requires WellFormed(b)
  {
    IsBounced(b) ==>
      BouncePieces(b.start, b.sectorSize, b.sectors, ps) && b.sectors <= |ps| * (MAX_SEGMENTS * PerPage(b.sectorSize))
  }

  function Needed(b: Srb): nat
    requires b.sectorSize > 0
  {
    CountRequests(b.sectors, b.sectorSize, b.buffer)
  }

  /** initialise_requests on any SRB.  It succeeds exactly if the bounce buffers suffice.  Then the requests use
      exactly what was counted if and only if there are sectors, or the buffer is bounced or page aligned, and they
      describe the transfer if and only if its sector numbers within a page fit a byte. */
  method SplitSrb(b: Srb, frames: int -> (int -> int), available: nat) returns (ok: bool, ps: seq<Piece>)
    requires WellFormed(b)
    ensures ok <==> !IsBounced(b) || b.sectors <= available * (MAX_SEGMENTS * PerPage(b.sectorSize))
    ensures forall p :: p in ps ==> PieceBounds(p)
    ensures ok ==> TotalBytes(ps) == b.sectorSize * b.sectors && (b.sectors == 0 <==> ps == [])
    ensures ok ==> Consecutive(b.start, b.sectorSize, b.sectors, ps)
    ensures ok && Moderate(b.sectors, b.sectorSize) ==>
              (|ps| == Needed(b) <==> b.sectors > 0 || IsBounced(b) || b.buffer % PAGE == 0)
    ensures ok ==> (Transfer(ps) == Plan(b.start, Targets(b, frames)) <==> Fits(b))
    ensures ok ==> Buffered(b, ps)
  {
    hide SectorSize, Covers, Bounced, Plan, Transfer, PieceBounds, TotalBytes, Wanted, BouncePieces, Groups,
      FitsBytes, Consecutive;
    var n, s, buf := b.sectors, b.sectorSize, b.buffer;
    ok, ps := InitialiseRequests(b.start, n, s, buf, b.mdl, frames, available);
    if ok {
      if Moderate(n, s) {
        CountMatches(n, s, buf, |ps|);
      }
      if n > 0 {
        FirstSectorNonNegative(buf, s);
        GroupsFit(|ps|, FirstSector(buf, s) + n, MAX_SEGMENTS * PerPage(s), 0);
      }
      MeaningIffFits(b.start, n, s, buf, b.mdl, frames, ps);
      if Bounced(buf, s) {
        Suffice(|ps|, n, MAX_SEGMENTS * PerPage(s), available, FirstSector(buf, s));
      }
    }
  }

  lemma FirstSectorNonNegative(buf: nat, s: int)
    requires s > 0
    ensures FirstSector(buf, s) >= 0 && (Bounced(buf, s) ==> FirstSector(buf, s) == 0)
  {
    assert (buf % PAGE) / s >= 0;
  }

  /** Groups are needed, and are enough exactly if there are as many as needed. */
  lemma GroupsFit(needed: int, a: int, b: int, available: nat)
    requires a >= 0 && b > 0 && Groups(needed, a, b)
    ensures needed >= 0 && (needed == 0 <==> a == 0) && (a <= available * b <==> needed <= available)
  {
    if needed <= 0 {
      MulLe(needed, 0, b);
    }
    if needed < 0 {
      MulLe(needed, -1, b);
    }
    if needed > 0 {
      MulLe(0, needed - 1, b);
    }
    if needed <= available {
      MulLe(needed, available, b);
    } else {
      MulLe(available, needed - 1, b);
    }
  }

  lemma Suffice(used: nat, n: nat, group: int, available: nat, first: int)
    requires group > 0 && used <= available && first == 0 && (n > 0 ==> Groups(used, first + n, group))
    ensures n <= used * group <= available * group
  {
    MulLe(used, available, group);
    assert used * group >= 0;
  }

  // ------------------------------------------------------------ the effect on disk and memory

  /** The contents of one sector. */
  type Data = seq<int>

  /** What a read does to memory: each sector of the list is stored in its place. */
  function AfterRead(mem: map<Place, Data>, disk: int -> Data, t: seq<Move>): map<Place, Data> {
    if t == [] then mem
    else AfterRead(mem, disk, t[..|t| - 1])[t[|t| - 1].place := disk(t[|t| - 1].sector)]
  }

  /** What a write leaves on disk in sector `x`: the last data written there, if any. */
  function AfterWrite(mem: map<Place, Data>, disk: int -> Data, t: seq<Move>, x: int): Data
    requires forall v :: v in t ==> v.place in mem
  {
    if t == [] then disk(x)
    else if t[|t| - 1].sector == x then mem[t[|t| - 1].place]
    else AfterWrite(mem, disk, t[..|t| - 1], x)
  }

  ghost predicate DistinctPlaces(w: seq<Place>) {
    forall i, j :: 0 <= i < j < |w| ==> w[i] != w[j]
  }

  lemma PlanInit(start: int, w: seq<Place>)
    requires w != []
    ensures Plan(start, w)[..|w| - 1] == Plan(start, w[..|w| - 1])
  {
  }

  /** A read delivers disk sector `start + k` to the `k`th place ... */
  lemma {:induction false} ReadDelivers(mem: map<Place, Data>, disk: int -> Data, start: int, w: seq<Place>, k: nat)
    requires DistinctPlaces(w) && k < |w|
    ensures var mem' := AfterRead(mem, disk, Plan(start, w)); w[k] in mem' && mem'[w[k]] == disk(start + k)
    decreases |w|
  {
    PlanInit(start, w);
    if k < |w| - 1 {
      ReadDelivers(mem, disk, start, w[..|w| - 1], k);
      assert w[k] != w[|w| - 1];
    }
  }

  /** ... and touches no other place. */
  lemma {:induction false} ReadTouchesNoOther(mem: map<Place, Data>, disk: int -> Data, start: int, w: seq<Place>,
                                              p: Place)
    requires p !in w
    ensures var mem' := AfterRead(mem, disk, Plan(start, w));
      (p in mem' <==> p in mem) && (p in mem ==> mem'[p] == mem[p])
    decreases |w|
  {
    if w != [] {
      PlanInit(start, w);
      ReadTouchesNoOther(mem, disk, start, w[..|w| - 1], p);
      assert p != w[|w| - 1];
    }
  }

  /** A write stores the `k`th place in disk sector `start + k` and no other sector changes. */
  lemma {:induction false} WriteStores(mem: map<Place, Data>, disk: int -> Data, start: int, w: seq<Place>, x: int)
    requires forall p :: p in w ==> p in mem
    requires forall v :: v in Plan(start, w) ==> v.place in mem
    ensures AfterWrite(mem, disk, Plan(start, w), x) ==
            if start <= x < start + |w| then mem[w[x - start]] else disk(x)
    decreases |w|
  {
    if w != [] {
      var n := |w| - 1;
      var v := w[..n];
      assert Plan(start, w)[..n] == Plan(start, v);
      WriteStores(mem, disk, start, v, x);
    }
  }

  /** Different sectors of a transfer have different places, when different pages have
      different frames. */
  lemma DirectPlacesDistinct(buf: nat, m: Mdl, s: int, n: nat)
    requires SectorSize(s) && s > 0 && PerPage(s) > 0 && buf % s == 0 && Covers(m, buf, n * s)
    requires forall i, j :: 0 <= i < j < |m.pfns| ==> m.pfns[i] != m.pfns[j]
    ensures DistinctPlaces(DirectRun(m, buf, s, 0, n))
  {
    hide SectorSize, Covers, Direct, PerPage;
    var w, p, x := DirectRun(m, buf, s, 0, n), PerPage(s), buf / s;
    forall i, j | 0 <= i < j < n ensures w[i] != w[j] {
      CoversPart(m, buf, s, n, i);
      CoversPart(m, buf, s, n, j);
      DirectPlace(m, buf, s, i);
      DirectPlace(m, buf, s, j);
      SectorUnique(x + i, x + j, p);
    }
  }

  lemma SectorUnique(x: int, y: int, p: int)
    requires p > 0 && x != y
    ensures x / p != y / p || x % p != y % p
  {
    assert x == p * (x / p) + x % p;
    assert y == p * (y / p) + y % p;
  }

  lemma QuotientWithin(r: int, p: int, m: int)
    requires p > 0 && 0 <= r < m * p
    ensures 0 <= r / p < m
  {
    var q := r / p;
    assert r == p * q + r % p;
    FewerSegments(q, m, p);
  }

  lemma PageInRequest(k: nat, p: int, n: int)
    requires p > 0 && k < n
    ensures 0 <= k / (MAX_SEGMENTS * p) < n && 0 <= (k % (MAX_SEGMENTS * p)) / p < MAX_SEGMENTS
  {
    var g := MAX_SEGMENTS * p;
    QuotientWithin(k % g, p, MAX_SEGMENTS);
    MulLe(1, g, n);
    assert n <= n * g;
    QuotientWithin(k, g, n);
  }

  /** The pages of the bounce buffers of a transfer of `n` sectors are all different. */
  ghost predicate BounceFramesDistinct(frames: int -> (int -> int), n: int) {
    forall g, i, h, j ::
      (0 <= g < n && 0 <= h < n && 0 <= i < MAX_SEGMENTS && 0 <= j < MAX_SEGMENTS && frames(g)(i) == frames(h)(j)) ==>
        g == h && i == j
  }

  lemma BouncedPlacesDistinct(frames: int -> (int -> int), s: int, n: nat)
    requires s > 0 && PerPage(s) > 0 && BounceFramesDistinct(frames, n)
    ensures DistinctPlaces(BouncedRun(frames, s, n))
  {
    var p, g := PerPage(s), MAX_SEGMENTS * PerPage(s);
    var w := BouncedRun(frames, s, n);
    forall i, j | 0 <= i < j < n ensures w[i] != w[j] {
      assert w[i] == InBounce(frames(i / g), s, i % g) && w[j] == InBounce(frames(j / g), s, j % g);
      SectorUnique(i, j, g);
      PageInRequest(i, p, n);
      PageInRequest(j, p, n);
      if i % g != j % g {
        SectorUnique(i % g, j % g, p);
      }
    }
  }

  /** Different pages of the buffer, and of the bounce buffers, have different frames. */
  ghost predicate FramesDistinct(m: Mdl, frames: int -> (int -> int), n: int) {
    && (forall i, j :: 0 <= i < j < |m.pfns| ==> m.pfns[i] != m.pfns[j])
    && BounceFramesDistinct(frames, n)
  }

  lemma WantedDistinct(buf: nat, m: Mdl, frames: int -> (int -> int), s: int, n: nat)
    requires SectorSize(s) && s > 0 && PerPage(s) > 0 && Covers(m, buf, n * s) && FramesDistinct(m, frames, n)
    ensures DistinctPlaces(Wanted(buf, m, frames, s, n)) && |Wanted(buf, m, frames, s, n)| == n
  {
    hide And, SectorSize, Covers, DistinctPlaces;
    BouncedIffUnaligned(buf, s);
    if Bounced(buf, s) {
      BouncedPlacesDistinct(frames, s, n);
    } else {
      DirectPlacesDistinct(buf, m, s, n);
    }
  }
}
