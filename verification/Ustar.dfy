/** The ustar scanner (scripts/verify_private_data.py), for archives in the ustar
    interchange format of POSIX.1 pax.

    The scanner reads headers, member bodies, zero padding and the end blocks from
    a source that may hand out its bytes in pieces.  It accepts exactly the byte
    sequences that `Layout` writes for some list of valid entries. */
module Ustar {
  import opened Wrappers

  type Bytes = seq<byte>

  const BLOCK: nat := 512
  const MAX_ARCHIVE_MEMBER_BYTES: nat := 2 * 1024 * 1024 * 1024
  const MAX_TAR_METADATA_BYTES: nat := 64 * 1024
  const MAX_TAR_TRAILING_PADDING_BYTES: nat := 1024 * 1024

  const NUL: byte := 0
  const SPACE: byte := 32
  const DOT: byte := 46
  const SLASH: byte := 47
  const BACKSLASH: byte := 92

  function Zeros(n: nat): (z: Bytes)
    ensures |z| == n
  {
    seq(n, _ => NUL)
  }

  function Padding(size: nat): nat { (BLOCK - size % BLOCK) % BLOCK }

  function Sum(b: Bytes): nat {
    if b == [] then 0 else Sum(b[..|b| - 1]) + b[|b| - 1] as int
  }

  // ----------------------------------------------------------------- numbers

  function RightStrip(b: Bytes): Bytes {
    if b != [] && b[|b| - 1] in {NUL, SPACE} then RightStrip(b[..|b| - 1]) else b
  }

  function LeftStrip(b: Bytes): Bytes {
    if b != [] && b[0] == SPACE then LeftStrip(b[1..]) else b
  }

  predicate OctalText(b: Bytes) { forall i :: 0 <= i < |b| ==> 48 <= b[i] <= 55 }

  function OctalValue(b: Bytes): nat
    requires OctalText(b)
  {
    if b == [] then 0 else 8 * OctalValue(b[..|b| - 1]) + (b[|b| - 1] as int - 48)
  }

  function TarOctal(field: Bytes): Option<nat> {
    var value := LeftStrip(RightStrip(field));
    if value == [] || !OctalText(value) then None else Some(OctalValue(value))
  }

  // ------------------------------------------------------------------- names

  function UpToNul(b: Bytes): Bytes {
    if b == [] || b[0] == NUL then [] else [b[0]] + UpToNul(b[1..])
  }

  function Parts(b: Bytes): (parts: seq<Bytes>)
    ensures parts != []
  {
    if b == [] then [[]]
    else
      var rest := Parts(b[1..]);
      if b[0] == SLASH then [[]] + rest else [[b[0]] + rest[0]] + rest[1..]
  }

  predicate SafeName(value: Bytes) {
    && value != [] && value[0] != SLASH && BACKSLASH !in value
    && forall part :: part in Parts(value) ==> part !in {[], [DOT], [DOT, DOT]}
  }

  /** `utf8`: the bytes decode as UTF-8. */
  function TarName(h: Bytes, utf8: Bytes -> bool): Option<Bytes>
    requires |h| == BLOCK
  {
    var raw := Joined(UpToNul(h[345..500]), UpToNul(h[..100]));
    if utf8(raw) && SafeName(Trimmed(raw)) then Some(Trimmed(raw)) else None
  }

  function Joined(prefix: Bytes, name: Bytes): Bytes {
    (if prefix != [] then prefix + [SLASH] else []) + name
  }

  /** Without one slash at the end. */
  function Trimmed(raw: Bytes): Bytes {
    if raw != [] && raw[|raw| - 1] == SLASH then raw[..|raw| - 1] else raw
  }

  // ----------------------------------------------------------------- headers

  const MAGIC: Bytes := [117, 115, 116, 97, 114]

  function Checksum(h: Bytes): nat
    requires |h| == BLOCK
  {
    Sum(h[..148]) + 8 * 32 + Sum(h[156..])
  }

  datatype Kind = Metadata | Directory | Regular | Special

  function KindOf(h: Bytes): Kind
    requires |h| == BLOCK
  {
    if h[156] in {120, 103, 76, 75} then Metadata      // x g L K
    else if h[156] == 53 then Directory                // 5
    else if h[156] in {NUL, 48} then Regular           // NUL 0
    else Special
  }

  predicate ValidHeader(h: Bytes, utf8: Bytes -> bool) {
    && |h| == BLOCK
    && (h[257..263] == MAGIC + [NUL] || h[257..263] == MAGIC + [SPACE])
    && TarOctal(h[148..156]) == Some(Checksum(h))
    && TarOctal(h[124..136]).Some?
    && TarName(h, utf8).Some?
  }

  predicate SizeOk(kind: Kind, size: nat) {
    match kind
    case Metadata => size <= MAX_TAR_METADATA_BYTES
    case Regular => size <= MAX_ARCHIVE_MEMBER_BYTES
    case _ => size == 0
  }

  /** A header and the body it announces. */
  datatype Entry = Entry(header: Bytes, body: Bytes)

  predicate ValidEntry(e: Entry, utf8: Bytes -> bool) {
    && ValidHeader(e.header, utf8)
    && TarOctal(e.header[124..136]) == Some(|e.body|)
    && SizeOk(KindOf(e.header), |e.body|)
  }

  function Stored(e: Entry): Bytes { e.header + e.body + Zeros(Padding(|e.body|)) }

  function Layout(entries: seq<Entry>): Bytes {
    if entries == [] then [] else Stored(entries[0]) + Layout(entries[1..])
  }

  /** Only zero blocks: at least `least`, and not too many more. */
  predicate ZeroBlocks(b: Bytes, least: nat) {
    && b == Zeros(|b|) && |b| % BLOCK == 0
    && least * BLOCK <= |b| <= least * BLOCK + MAX_TAR_TRAILING_PADDING_BYTES
  }

  /** The whole archive: valid entries, then two end blocks and trailing zero blocks. */
  ghost predicate Archive(b: Bytes, entries: seq<Entry>, end: Bytes, utf8: Bytes -> bool) {
    && AllValid(entries, utf8)
    && ZeroBlocks(end, 2)
    && b == Layout(entries) + end
  }

  /** What an entry is to the scan. */
  datatype Visit =
    | Member(name: Bytes, body: Bytes) | Folder(name: Bytes) | Unsupported(name: Bytes) | Unsafe(name: Bytes)

  function VisitOf(e: Entry, utf8: Bytes -> bool): Visit
    requires ValidEntry(e, utf8)
  {
    var name := TarName(e.header, utf8).value;
    match KindOf(e.header)
    case Metadata => Unsupported(name)
    case Directory => Folder(name)
    case Regular => Member(name, e.body)
    case Special => Unsafe(name)
  }

  datatype Refusal = Malformed | Limit

  class Source {
    var rest: Bytes

    /** At most `n` bytes; short only at the end, unless the source is not calm. */
    method Read(n: nat, calm: bool) returns (chunk: Bytes)
      modifies this
      ensures chunk + rest == old(rest) && |chunk| <= n
      ensures n > 0 && old(rest) != [] ==> chunk != []
      ensures calm ==> |chunk| == if n <= |old(rest)| then n else |old(rest)|
    {
      var size := if n <= |rest| then n else |rest|;
      if !calm && size > 1 { size :| 0 < size <= n && size <= |rest|; }
      chunk, rest := rest[..size], rest[size..];
    }

    method ReadExact(n: nat, calm: bool) returns (r: Option<Bytes>)
      modifies this
      ensures r.Some? ==> |r.value| == n && r.value + rest == old(rest)
      ensures r.None? ==> |old(rest)| < n
    {
      var got: Bytes := [];
      while |got| < n
        invariant |got| <= n && got + rest == old(rest)
      {
        var chunk := Read(n - |got|, calm);
        if chunk == [] { return None; }
        assert got + (chunk + rest) == (got + chunk) + rest;
        got := got + chunk;
      }
      r := Some(got);
    }

    /** A member's bytes through its own reader.  A consumer that is not calm may
        leave off before the end, as one that hits a limit does. */
    method ReadMember(size: nat, calm: bool) returns (r: Option<Bytes>)
      modifies this
      ensures r.Some? ==> |r.value| == size && r.value + rest == old(rest)
      ensures calm && r.None? ==> |old(rest)| < size
    {
      var got, remaining: nat := [], size;
      while remaining > 0
        invariant remaining + |got| == size && got + rest == old(rest)
      {
        var stop := *;
        if stop && !calm { return None; }
        var chunk := Read(remaining, calm);
        if chunk == [] { return None; }
        assert got + (chunk + rest) == (got + chunk) + rest;
        got, remaining := got + chunk, remaining - |chunk|;
      }
      r := Some(got);
    }

    /** The block behind the first zero block, then zero blocks to the end. */
    method ReadEnd(calm: bool) returns (r: Option<Refusal>)
      modifies this
      ensures r.None? ==> ZeroBlocks(old(rest), 1) && rest == []
      ensures calm && ZeroBlocks(old(rest), 1) ==> r.None?
    {
      ghost var all := rest;
      var second := ReadExact(BLOCK, calm);
      assert second.Some? ==> second.value == all[..BLOCK];
      if second.None? || second.value != Zeros(BLOCK) { return Some(Malformed); }
      var trailing: nat := 0;
      while true
        invariant all == Zeros(BLOCK + trailing) + rest
        invariant trailing % BLOCK == 0 && trailing <= MAX_TAR_TRAILING_PADDING_BYTES
        decreases |rest|
      {
        ghost var left := rest;
        var chunk := Read(BLOCK, calm);
        if chunk == [] {
          assert Zeros(BLOCK + trailing) + [] == Zeros(BLOCK + trailing);
          return None;
        }
        trailing := trailing + |chunk|;
        if trailing > MAX_TAR_TRAILING_PADDING_BYTES || |chunk| != BLOCK || chunk != Zeros(|chunk|) {
          if calm { ZeroChunk(all, trailing - |chunk|, left, chunk, rest); }
          return Some(Limit);
        }
        assert Zeros(BLOCK + trailing - |chunk|) + Zeros(|chunk|) == Zeros(BLOCK + trailing);
        assert Zeros(BLOCK + trailing - |chunk|) + (chunk + rest) == Zeros(BLOCK + trailing) + rest;
      }
    }

    /** What follows a header.  `e` and `tail`: what the source might hold. */
    method ReadEntry(h: Bytes, utf8: Bytes -> bool, calm: bool, ghost e: Entry, ghost tail: Bytes)
      returns (r: Result<Entry, Refusal>)
      requires |h| == BLOCK
      modifies this
      ensures r.Ok? ==> r.value.header == h && ValidEntry(r.value, utf8) && old(rest) == Behind(r.value) + rest
      ensures calm && ValidEntry(e, utf8) && e.header == h && old(rest) == Behind(e) + tail ==>
                r == Ok(e) && rest == tail
    {
      var size := CheckHeader(h, utf8);
      if size.Err? { return Err(size.error); }
      hide ValidHeader, TarOctal, SizeOk, KindOf;
      var body := ReadBehind(size.value, calm, e, tail);
      if body.None? { return Err(Malformed); }
      r := Ok(Entry(h, body.value));
    }

    /** A body of `size` bytes and its padding. */
    method ReadBehind(size: nat, calm: bool, ghost e: Entry, ghost tail: Bytes) returns (r: Option<Bytes>)
      modifies this
      ensures r.Some? ==> |r.value| == size && old(rest) == r.value + Zeros(Padding(size)) + rest
      ensures calm && |e.body| == size && old(rest) == Behind(e) + tail ==> r == Some(e.body) && rest == tail
    {
      ghost var all := rest;
      var body := ReadMember(size, calm);
      if body.None? { return None; }
      ghost var afterBody := rest;
      ghost var planned := calm && |e.body| == size && all == Behind(e) + tail;
      if planned { BehindIsUnique(e, tail, body.value, afterBody); }
      hide Padding, Behind;
      var padding := ReadExact(Padding(size), calm);
      assert padding.Some? ==> padding.value == afterBody[..Padding(size)] && rest == afterBody[Padding(size)..];
      if padding.None? || padding.value != Zeros(Padding(size)) { return None; }
      assert body.value + (padding.value + rest) == body.value + padding.value + rest;
      r := body;
    }

    /** The next entry, or none at the first zero block.  `plan` and `end`: what the
        source might hold. */
    method NextEntry(utf8: Bytes -> bool, calm: bool, ghost plan: seq<Entry>, ghost end: Bytes)
      returns (r: Result<Option<Entry>, Refusal>)
      modifies this
      ensures r.Ok? && r.value.Some? ==> ValidEntry(r.value.value, utf8) && old(rest) == Stored(r.value.value) + rest
      ensures r.Ok? && r.value.Some? ==> |rest| < |old(rest)|
      ensures r == Ok(None) ==> old(rest) == Zeros(BLOCK) + rest
      ensures calm && Archive(old(rest), plan, end, utf8) ==>
                r == Ok(if plan == [] then None else Some(plan[0]))
                && (plan != [] ==> Archive(rest, plan[1..], end, utf8))
    {
      hide ValidEntry, ValidHeader, ZeroBlocks;
      ghost var here := rest;
      ghost var planned := calm && Archive(here, plan, end, utf8);
      if planned { PlanAhead(plan, end, utf8); }
      var header := ReadExact(BLOCK, calm);
      if header.None? { return Err(Malformed); }
      var h := header.value;
      assert h == here[..BLOCK] && rest == here[BLOCK..];
      if h == Zeros(BLOCK) { return Ok(None); }
      ghost var e := if plan != [] then plan[0] else Entry([], []);
      ghost var tail := if plan != [] then Layout(plan[1..]) + end else [];
      ghost var behind := rest;
      var entry := ReadEntry(h, utf8, calm, e, tail);
      if entry.Err? { return Err(entry.error); }
      assert h + (Behind(entry.value) + rest) == Stored(entry.value) + rest;
      r := Ok(Some(entry.value));
    }

    /** `plan` and `end`: an archive the source might hold, for the other direction. */
    method ScanUstar(utf8: Bytes -> bool, limit: nat, calm: bool, ghost plan: seq<Entry>, ghost end: Bytes)
      returns (r: Result<seq<Visit>, Refusal>, ghost entries: seq<Entry>, ghost zeros: Bytes)
      modifies this
      ensures r.Ok? ==>
                && Archive(old(rest), entries, zeros, utf8) && |entries| <= limit
                && rest == [] && r.value == Visits(entries, utf8)
      ensures calm && Archive(old(rest), plan, end, utf8) && |plan| <= limit ==> r.Ok? && entries == plan
    {
      hide ValidEntry, ZeroBlocks, VisitOf, Stored;
      ghost var all := rest;
      var visits: seq<Visit> := [];
      entries, zeros := [], [];
      ghost var planned := calm && Archive(all, plan, end, utf8) && |plan| <= limit;
      while true
        invariant AllValid(entries, utf8) && all == Layout(entries) + rest && |visits| == |entries| <= limit
        invariant visits == Visits(entries, utf8)
        invariant planned ==> entries <= plan && Archive(rest, plan[|entries|..], end, utf8)
        decreases |rest|
      {
        var next := NextEntry(utf8, calm, plan[if |entries| <= |plan| then |entries| else |plan|..], end);
        if next.Err? { return Err(next.error), entries, zeros; }
        if next.value.None? { break; }
        var entry := next.value.value;
        if |visits| == limit { return Err(Limit), entries, zeros; }
        LayoutPush(entries, entry, rest);
        visits := visits + [VisitOf(entry, utf8)];
        entries := entries + [entry];
      }
      zeros := Zeros(BLOCK) + rest;
      EndBlocks(rest);
      assert planned ==> Layout(plan[|entries|..]) + end == end && plan[..|entries|] == entries;
      var ended := ReadEnd(calm);
      if ended.Some? { return Err(ended.value), entries, zeros; }
      r := Ok(visits);
    }
  }

  /** The checks on one header; the size it announces. */
  function CheckHeader(h: Bytes, utf8: Bytes -> bool): (r: Result<nat, Refusal>)
    requires |h| == BLOCK
    ensures r.Ok? <==> ValidHeader(h, utf8) && SizeOk(KindOf(h), TarOctal(h[124..136]).value)
    ensures r.Ok? ==> TarOctal(h[124..136]) == Some(r.value)
  {
    var size := TarOctal(h[124..136]);
    if h[257..263] != MAGIC + [NUL] && h[257..263] != MAGIC + [SPACE] then Err(Malformed)
    else if TarOctal(h[148..156]) != Some(Checksum(h)) then Err(Malformed)
    else if size.None? || TarName(h, utf8).None? then Err(Malformed)
    else if !SizeOk(KindOf(h), size.value) then Err(if KindOf(h) == Directory then Malformed else Limit)
    else Ok(size.value)
  }

  ghost predicate AllValid(entries: seq<Entry>, utf8: Bytes -> bool) {
    forall k :: 0 <= k < |entries| ==> ValidEntry(entries[k], utf8)
  }

  function Behind(e: Entry): Bytes { e.body + Zeros(Padding(|e.body|)) }

  function Visits(entries: seq<Entry>, utf8: Bytes -> bool): seq<Visit>
    requires AllValid(entries, utf8)
  {
    seq(|entries|, k requires 0 <= k < |entries| => VisitOf(entries[k], utf8))
  }

  lemma BehindIsUnique(e: Entry, tail: Bytes, body: Bytes, rest: Bytes)
    requires Behind(e) + tail == body + rest && |body| == |e.body|
    ensures body == e.body && rest == Zeros(Padding(|body|)) + tail
  {
    var pad := Zeros(Padding(|body|));
    assert (body + rest)[..|body|] == body && (Behind(e) + tail)[..|body|] == e.body;
    assert (body + rest)[|body|..] == rest && (Behind(e) + tail)[|body|..] == pad + tail;
  }

  lemma {:induction false} LayoutOfBoth(a: seq<Entry>, b: seq<Entry>)
    ensures Layout(a + b) == Layout(a) + Layout(b)
  {
    if a == [] {
      assert a + b == b && Layout(a) + Layout(b) == Layout(b);
    } else {
      assert (a + b)[1..] == a[1..] + b;
      LayoutOfBoth(a[1..], b);
      assert Stored(a[0]) + (Layout(a[1..]) + Layout(b)) == (Stored(a[0]) + Layout(a[1..])) + Layout(b);
    }
  }

  lemma LayoutPush(entries: seq<Entry>, e: Entry, rest: Bytes)
    ensures Layout(entries) + (Stored(e) + rest) == Layout(entries + [e]) + rest
  {
    hide Stored;
    LayoutOfBoth(entries, [e]);
    assert Layout([e]) == Stored(e) + [] == Stored(e);
    assert Layout(entries) + (Stored(e) + rest) == (Layout(entries) + Stored(e)) + rest;
  }

  lemma HeaderIsNotZero(h: Bytes, utf8: Bytes -> bool)
    requires ValidHeader(h, utf8)
    ensures |h| == BLOCK && h != Zeros(BLOCK)
  {
    assert h[257..263][0] == 117;
  }

  /** The next thing an archive holds: an entry, whose header is no zero block, or
      the first of the end blocks. */
  lemma PlanAhead(plan: seq<Entry>, end: Bytes, utf8: Bytes -> bool)
    requires AllValid(plan, utf8) && ZeroBlocks(end, 2)
    ensures var rest := Layout(plan) + end;
            && |rest| >= BLOCK
            && (plan != [] ==>
                  && rest[..BLOCK] == plan[0].header != Zeros(BLOCK)
                  && rest[BLOCK..] == Behind(plan[0]) + (Layout(plan[1..]) + end)
                  && ValidEntry(plan[0], utf8) && AllValid(plan[1..], utf8))
            && (plan == [] ==> rest == end && rest[..BLOCK] == Zeros(BLOCK))
  {
    hide ValidHeader, TarOctal;
    if plan != [] {
      HeaderIsNotZero(plan[0].header, utf8);
      hide ValidEntry, Stored, Behind;
      StoredSplits(plan[0], Layout(plan[1..]), end);
    }
  }

  lemma StoredSplits(e: Entry, more: Bytes, end: Bytes)
    requires |e.header| == BLOCK
    ensures var rest := Stored(e) + more + end;
            |rest| >= BLOCK && rest[..BLOCK] == e.header && rest[BLOCK..] == Behind(e) + (more + end)
  {
    hide Padding;
    assert Stored(e) == e.header + Behind(e);
    hide Stored, Behind;
    assert e.header + Behind(e) + more + end == e.header + (Behind(e) + (more + end));
  }

  lemma EndBlocks(rest: Bytes)
    ensures ZeroBlocks(rest, 1) <==> ZeroBlocks(Zeros(BLOCK) + rest, 2)
  {
    var all := Zeros(BLOCK) + rest;
    assert rest == all[BLOCK..];
  }

  lemma ZeroChunk(all: Bytes, trailing: nat, left: Bytes, chunk: Bytes, rest: Bytes)
    requires all == Zeros(BLOCK + trailing) + left && left == chunk + rest && chunk != [] && trailing % BLOCK == 0
    requires |chunk| == if BLOCK <= |left| then BLOCK else |left|
    ensures ZeroBlocks(all, 1) ==>
              trailing + |chunk| <= MAX_TAR_TRAILING_PADDING_BYTES && |chunk| == BLOCK && chunk == Zeros(|chunk|)
  {
    var n := BLOCK + trailing;
    assert chunk == all[n..n + |chunk|];
  }

  /** An accepted archive is a whole number of blocks. */
  lemma {:induction false} ArchiveIsBlocks(entries: seq<Entry>, utf8: Bytes -> bool)
    requires AllValid(entries, utf8)
    ensures |Layout(entries)| % BLOCK == 0
  {
    hide ValidEntry, Stored;
    if entries != [] {
      ArchiveIsBlocks(entries[1..], utf8);
      StoredIsBlocks(entries[0], utf8);
    }
  }

  lemma StoredIsBlocks(e: Entry, utf8: Bytes -> bool)
    requires ValidEntry(e, utf8)
    ensures |Stored(e)| % BLOCK == 0
  {
    hide TarOctal, ValidHeader;
    HeaderIsNotZero(e.header, utf8);
    PaddingFills(|e.body|);
  }

  lemma PaddingFills(size: nat)
    ensures (size + Padding(size)) % BLOCK == 0
  {
  }

  // ------------------------------------------------------------- serialising

  /** A regular file as its header stores it: the two parts of its name, the type
      flag and the byte behind the magic in either spelling, and the fields the
      scanner does not look at. */
  datatype File = File(
    prefix: Bytes, name: Bytes, body: Bytes, flag: byte, gap: byte,
    owner: Bytes, mtime: Bytes, link: Bytes, names: Bytes, rest: Bytes)

  function FullName(f: File): Bytes { Trimmed(Joined(f.prefix, f.name)) }

  predicate Writable(f: File, utf8: Bytes -> bool) {
    && |f.prefix| <= 155 && NUL !in f.prefix && |f.name| <= 100 && NUL !in f.name
    && utf8(Joined(f.prefix, f.name)) && SafeName(FullName(f))
    && f.flag in {NUL, 48} && f.gap in {NUL, SPACE}
    && |f.body| <= MAX_ARCHIVE_MEMBER_BYTES
    && |f.owner| == 24 && |f.mtime| == 12 && |f.link| == 100 && |f.names| == 82 && |f.rest| == 12
  }

  function OctalDigits(n: nat, width: nat): (digits: Bytes)
    ensures |digits| == width && OctalText(digits)
  {
    if width == 0 then [] else OctalDigits(n / 8, width - 1) + [(48 + n % 8) as byte]
  }

  function Pow8(k: nat): nat { if k == 0 then 1 else 8 * Pow8(k - 1) }

  lemma {:induction false} OctalRoundTrip(n: nat, width: nat)
    requires n < Pow8(width)
    ensures OctalValue(OctalDigits(n, width)) == n
  {
    if width > 0 { OctalRoundTrip(n / 8, width - 1); }
  }

  /** A field of digits closed by NUL and perhaps a space reads back as the number. */
  lemma FieldRoundTrip(n: nat, width: nat)
    requires 0 < width && n < Pow8(width)
    ensures TarOctal(OctalDigits(n, width) + [NUL]) == Some(n)
    ensures TarOctal(OctalDigits(n, width) + [NUL, SPACE]) == Some(n)
  {
    var d := OctalDigits(n, width);
    OctalRoundTrip(n, width);
    assert d[width - 1] >= 48 && d[0] >= 48;
    var one, two := d + [NUL], d + [NUL, SPACE];
    assert RightStrip(d) == d && LeftStrip(d) == d;
    assert one[..width] == d && two[..width + 1] == one;
    assert RightStrip(one) == d && RightStrip(two) == RightStrip(one);
  }

  lemma {:induction false} SumBound(b: Bytes)
    ensures Sum(b) <= 255 * |b|
  {
    if b != [] { SumBound(b[..|b| - 1]); }
  }

  /** A field of fixed width, filled up with NULs. */
  function Filled(b: Bytes, width: nat): (field: Bytes)
    ensures |b| <= width ==> |field| == width
  {
    b + Zeros(if |b| <= width then width - |b| else 0)
  }

  function Front(f: File): Bytes {
    Filled(f.name, 100) + f.owner + (OctalDigits(|f.body|, 11) + [NUL]) + f.mtime
  }

  function Back(f: File): Bytes { [f.flag] + f.link + (MAGIC + [f.gap]) + f.names + Filled(f.prefix, 155) + f.rest }

  function HeaderOf(f: File): Bytes {
    Front(f) + (OctalDigits(Sum(Front(f)) + 8 * 32 + Sum(Back(f)), 6) + [NUL, SPACE]) + Back(f)
  }

  lemma HeaderFields(f: File, utf8: Bytes -> bool)
    requires Writable(f, utf8)
    ensures |Front(f)| == 148 && |Back(f)| == 356 && |HeaderOf(f)| == BLOCK
    ensures var h := HeaderOf(f);
            && h[..148] == Front(f) && h[156..] == Back(f) && h[156] == f.flag
            && h[148..156] == OctalDigits(Sum(Front(f)) + 8 * 32 + Sum(Back(f)), 6) + [NUL, SPACE]
            && h[124..136] == OctalDigits(|f.body|, 11) + [NUL]
            && h[257..263] == MAGIC + [f.gap]
            && h[..100] == Filled(f.name, 100) && h[345..500] == Filled(f.prefix, 155)
  {
    hide SafeName, Sum, FullName, Filled;
    var front, back, h := Front(f), Back(f), HeaderOf(f);
    assert front[124..136] == OctalDigits(|f.body|, 11) + [NUL];
    assert front[..100] == Filled(f.name, 100);
    assert back[101..107] == MAGIC + [f.gap];
    assert back[189..344] == Filled(f.prefix, 155);
    assert back[0] == f.flag;
    hide Front, Back;
    assert h[..148] == front && h[156..] == back && h[156] == back[0];
    assert h[124..136] == front[124..136] && h[..100] == front[..100];
    assert h[257..263] == back[101..107] && h[345..500] == back[189..344];
  }

  lemma {:induction false} NameIsCut(name: Bytes, n: nat)
    requires NUL !in name
    ensures UpToNul(name + Zeros(n)) == name
  {
    if name != [] {
      assert (name + Zeros(n))[1..] == name[1..] + Zeros(n);
      NameIsCut(name[1..], n);
    }
  }

  lemma Powers()
    ensures Pow8(6) == 262144 && Pow8(11) == 8589934592
  {
    assert Pow8(3) == 512;
    assert Pow8(6) == 262144;
    assert Pow8(9) == 134217728;
  }

  lemma HeaderName(f: File, h: Bytes, utf8: Bytes -> bool)
    requires Writable(f, utf8) && |h| == BLOCK
    requires h[..100] == Filled(f.name, 100) && h[345..500] == Filled(f.prefix, 155)
    ensures TarName(h, utf8) == Some(FullName(f))
  {
    hide SafeName, Zeros, Joined, Trimmed;
    NameIsCut(f.name, 100 - |f.name|);
    NameIsCut(f.prefix, 155 - |f.prefix|);
    hide UpToNul;
  }

  lemma HeaderNumbers(f: File, utf8: Bytes -> bool)
    requires Writable(f, utf8)
    ensures TarOctal(OctalDigits(|f.body|, 11) + [NUL]) == Some(|f.body|)
    ensures var sum := Sum(Front(f)) + 8 * 32 + Sum(Back(f)); TarOctal(OctalDigits(sum, 6) + [NUL, SPACE]) == Some(sum)
  {
    hide SafeName, Sum, OctalDigits, TarOctal, Front, Back, Pow8;
    HeaderFields(f, utf8);
    Powers();
    SumBound(Front(f));
    SumBound(Back(f));
    FieldRoundTrip(|f.body|, 11);
    FieldRoundTrip(Sum(Front(f)) + 8 * 32 + Sum(Back(f)), 6);
  }

  lemma HeaderIsValid(f: File, utf8: Bytes -> bool)
    requires Writable(f, utf8)
    ensures ValidEntry(Entry(HeaderOf(f), f.body), utf8)
    ensures VisitOf(Entry(HeaderOf(f), f.body), utf8) == Member(FullName(f), f.body)
  {
    hide Sum, OctalDigits, Front, Back, HeaderOf, SafeName, FullName, TarOctal, TarName, Zeros;
    HeaderFields(f, utf8);
    HeaderNumbers(f, utf8);
    HeaderName(f, HeaderOf(f), utf8);
  }

  function EntriesOf(files: seq<File>): seq<Entry> {
    seq(|files|, k requires 0 <= k < |files| => Entry(HeaderOf(files[k]), files[k].body))
  }

  function VisitsOf(files: seq<File>): seq<Visit> {
    seq(|files|, k requires 0 <= k < |files| => Member(FullName(files[k]), files[k].body))
  }

  /** Any list of regular files, written out and scanned, is visited once each, in
      order, under its whole name and with its own body. */
  method ScanWritten(source: Source, files: seq<File>, end: Bytes, utf8: Bytes -> bool, limit: nat)
    returns (r: Result<seq<Visit>, Refusal>)
    requires forall k :: 0 <= k < |files| ==> Writable(files[k], utf8)
    requires |files| <= limit && ZeroBlocks(end, 2) && source.rest == Layout(EntriesOf(files)) + end
    modifies source
    ensures r == Ok(VisitsOf(files))
  {
    ghost var plan := EntriesOf(files);
    forall k | 0 <= k < |files|
      ensures ValidEntry(plan[k], utf8) && VisitOf(plan[k], utf8) == VisitsOf(files)[k]
    {
      HeaderIsValid(files[k], utf8);
    }
    hide ValidEntry, VisitOf, HeaderOf, ZeroBlocks, Layout, Writable;
    ghost var entries, zeros;
    r, entries, zeros := source.ScanUstar(utf8, limit, true, plan, end);
    assert Visits(plan, utf8) == VisitsOf(files);
  }
}
