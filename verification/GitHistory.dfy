/**
 Reading `git cat-file --batch-all-objects --batch` through a pipe: every object is
 a header line, its bytes and a newline, and the pipe delivers them in arbitrary
 pieces.  A byte is modelled as the character with its value.
 */
module GitHistory {
  import opened Wrappers

  const STREAM_CHUNK_BYTES: nat := 1024 * 1024
  const MAX_GIT_BATCH_BUFFER_BYTES: nat := 2 * STREAM_CHUNK_BYTES
  const PIPE_READ_BYTES: nat := 64 * 1024
  const MAX_HEADER_BYTES: nat := 256
  const MAX_RAW_FILE_BYTES: nat := 4 * 1024 * 1024 * 1024
  const MAX_PATH_ENTRIES: nat := 100_000
  const MAX_FILES: nat := 100_000
  const MAX_TOTAL_INPUT_BYTES: nat := 16 * 1024 * 1024 * 1024

  type Bytes = string

  datatype Reason =
    | Framing | ShortRead | OidMismatch | TypeInvalid | SizeInvalid | DuplicateOid
    | RawByteLimit | PathEntryLimit | FileCountLimit | InputByteLimit | ContentOidMismatch
    | Timeout

  datatype Header = Header(oid: Bytes, kind: Bytes, size: nat)
  datatype GitObject = GitObject(oid: Bytes, kind: Bytes, body: Bytes)
  datatype Budget = Budget(entries: nat, files: nat, input: nat)

  /** What the generator hands out, and how it ends. */
  datatype Yield = Yield(objects: seq<GitObject>, failure: Option<Reason>)

  /** The repository's object format: its digest, as lower-case hexadecimal. */
  datatype Format = Format(width: nat, digest: Bytes -> Bytes)

  // ------------------------------------------------------------------ decimal

  function Digit(n: nat): char requires n < 10 { ('0' as int + n) as char }

  predicate IsDigit(c: char) { '0' <= c <= '9' }

  function Decimal(n: nat): Bytes {
    if n < 10 then [Digit(n)] else Decimal(n / 10) + [Digit(n % 10)]
  }

  predicate CanonicalDecimal(t: Bytes) {
    t != [] && (forall i :: 0 <= i < |t| ==> IsDigit(t[i])) && (|t| > 1 ==> t[0] != '0')
  }

  function Number(t: Bytes): nat
    requires forall i :: 0 <= i < |t| ==> IsDigit(t[i])
  {
    if t == [] then 0
    else
      assert IsDigit(t[|t| - 1]);
      10 * Number(t[..|t| - 1]) + (t[|t| - 1] as int - '0' as int)
  }

  lemma {:induction false} DecimalNumber(n: nat)
    ensures CanonicalDecimal(Decimal(n)) && Number(Decimal(n)) == n
    ensures n > 0 ==> Decimal(n)[0] != '0'
  {
    if n >= 10 {
      DecimalNumber(n / 10);
      var t := Decimal(n / 10);
      assert Decimal(n)[..|t|] == t && Decimal(n)[0] == t[0];
    } else {
      assert Decimal(n)[..0] == [];
    }
  }

  lemma {:induction false} NumberDecimal(t: Bytes)
    requires CanonicalDecimal(t)
    ensures Decimal(Number(t)) == t
    ensures t[0] != '0' ==> Number(t) > 0
  {
    var n := |t| - 1;
    var d := t[n] as int - '0' as int;
    if n > 0 {
      NumberDecimal(t[..n]);
      assert Number(t) / 10 == Number(t[..n]) && Number(t) % 10 == d;
      assert t == t[..n] + [t[n]];
    } else {
      assert t[..0] == [] && Number(t[..0]) == 0;
      assert t == [t[0]];
    }
  }

  // ------------------------------------------------------------------ headers

  function Find(t: Bytes, c: char): (i: nat)
    ensures i <= |t| && (forall k :: 0 <= k < i ==> t[k] != c) && (i < |t| ==> t[i] == c)
  {
    if t == [] || t[0] == c then 0 else 1 + Find(t[1..], c)
  }

  predicate IsOid(t: Bytes, width: nat) {
    |t| == width && t != [] && forall i :: 0 <= i < |t| ==> IsDigit(t[i]) || 'a' <= t[i] <= 'f'
  }

  const KINDS := {"blob", "tree", "commit", "tag"}

  predicate Without(t: Bytes, c: char) { forall k :: 0 <= k < |t| ==> t[k] != c }

  function Join(a: Bytes, b: Bytes, c: Bytes): Bytes { a + " " + b + " " + c }

  /** Splitting at single spaces, when that gives exactly three fields. */
  function Fields(text: Bytes): (r: Option<(Bytes, Bytes, Bytes)>)
    ensures r.Some? ==> text == Join(r.value.0, r.value.1, r.value.2)
  {
    var i := Find(text, ' ');
    if i == |text| then None
    else
      var rest := text[i + 1..];
      var j := Find(rest, ' ');
      if j == |rest| || Find(rest[j + 1..], ' ') < |rest[j + 1..]| then None
      else
        JoinAt(text, i, j);
        Some((text[..i], rest[..j], rest[j + 1..]))
  }

  lemma JoinAt(text: Bytes, i: nat, j: nat)
    requires i < |text| && text[i] == ' ' && j < |text[i + 1..]| && text[i + 1..][j] == ' '
    ensures text == Join(text[..i], text[i + 1..][..j], text[i + 1..][j + 1..])
  {
    var rest := text[i + 1..];
    assert text == text[..i] + [text[i]] + rest;
    assert rest == rest[..j] + [rest[j]] + rest[j + 1..];
    assert text[..i] + " " + (rest[..j] + " " + rest[j + 1..]) == text[..i] + " " + rest[..j] + " " + rest[j + 1..];
  }

  lemma FindFirst(a: Bytes, c: char, b: Bytes)
    requires Without(a, c)
    ensures Find(a + [c] + b, c) == |a|
  {
    var t := a + [c] + b;
    assert t[|a|] == c;
    assert forall k :: 0 <= k < |a| ==> t[k] == a[k];
  }

  lemma FieldsOfJoin(a: Bytes, b: Bytes, c: Bytes)
    requires Without(a, ' ') && Without(b, ' ') && Without(c, ' ')
    ensures Fields(Join(a, b, c)) == Some((a, b, c))
  {
    var rest := b + [' '] + c;
    assert Join(a, b, c) == a + [' '] + rest;
    FindFirst(a, ' ', rest);
    assert (a + [' '] + rest)[|a| + 1..] == rest && (a + [' '] + rest)[..|a|] == a;
    FindFirst(b, ' ', c);
    assert rest[|b| + 1..] == c && rest[..|b|] == b;
    assert Find(c, ' ') == |c|;
  }

  /** The header line, checked in the order the parser checks it. */
  function ParseHeader(line: Bytes, format: Format): Result<Header, Reason>
    requires line != [] && line[|line| - 1] == '\n'
  {
    if |line| > MAX_HEADER_BYTES then Err(Framing)
    else
      var fields := Fields(line[..|line| - 1]);
      if fields.None? then Err(Framing)
      else
        var (oid, kind, size) := fields.value;
        if !IsOid(oid, format.width) then Err(OidMismatch)
        else if kind !in KINDS then Err(TypeInvalid)
        else if !CanonicalDecimal(size) then Err(SizeInvalid)
        else Ok(Header(oid, kind, Number(size)))
  }

  function HeaderLine(h: Header): Bytes {
    Join(h.oid, h.kind, Decimal(h.size)) + "\n"
  }

  predicate HeaderOk(h: Header, format: Format) {
    IsOid(h.oid, format.width) && h.kind in KINDS
  }

  /** The two object formats, sha1 and sha256. */
  predicate Supported(format: Format) {
    format.width == 40 || format.width == 64
  }

  lemma {:induction false} DecimalLength(n: nat, bound: nat, digits: nat)
    requires digits > 0 && n < bound && bound <= Power10(digits)
    ensures |Decimal(n)| <= digits
    decreases digits
  {
    if n >= 10 { DecimalLength(n / 10, Power10(digits - 1), digits - 1); }
  }

  function Power10(k: nat): nat {
    if k == 0 then 1 else 10 * Power10(k - 1)
  }

  /** No admissible object is refused for the length of its header. */
  lemma HeaderFits(h: Header, format: Format)
    requires HeaderOk(h, format) && Supported(format) && h.size <= MAX_RAW_FILE_BYTES
    ensures |HeaderLine(h)| <= MAX_HEADER_BYTES
  {
    assert Power10(5) == 100_000;
    assert Power10(10) == 100_000 * Power10(5) by {
      assert Power10(7) == 100 * Power10(5);
      assert Power10(9) == 100 * Power10(7);
    }
    DecimalLength(h.size, MAX_RAW_FILE_BYTES + 1, 10);
    assert |h.kind| <= 6;
  }

  /** Parsing undoes writing ... */
  lemma HeaderRoundTrip(h: Header, format: Format)
    requires HeaderOk(h, format) && |HeaderLine(h)| <= MAX_HEADER_BYTES
    ensures ParseHeader(HeaderLine(h), format) == Ok(h)
  {
    hide Fields, Join, Decimal, Number;
    DecimalNumber(h.size);
    var line := HeaderLine(h);
    assert line[..|line| - 1] == Join(h.oid, h.kind, Decimal(h.size));
    FieldsOfJoin(h.oid, h.kind, Decimal(h.size));
  }

  /** ... and accepts nothing but what writing produces. */
  lemma HeaderIsCanonical(line: Bytes, format: Format)
    requires line != [] && line[|line| - 1] == '\n' && ParseHeader(line, format).Ok?
    ensures HeaderLine(ParseHeader(line, format).value) == line
    ensures HeaderOk(ParseHeader(line, format).value, format)
  {
    hide Find, Join, Decimal, Number;
    var fields := Fields(line[..|line| - 1]);
    NumberDecimal(fields.value.2);
    assert line == line[..|line| - 1] + "\n";
  }

  // -------------------------------------------------------- the whole stream

  /** Charges one object to the scan budget. */
  function Charge(b: Budget, size: nat): Result<Budget, Reason> {
    if b.entries + 1 > MAX_PATH_ENTRIES then Err(PathEntryLimit)
    else if b.files + 1 > MAX_FILES then Err(FileCountLimit)
    else if b.input + size > MAX_TOTAL_INPUT_BYTES then Err(InputByteLimit)
    else Ok(Budget(b.entries + 1, b.files + 1, b.input + size))
  }

  /** The checks between the header and the body. */
  function Admit(line: Bytes, seen: set<Bytes>, b: Budget, format: Format): Result<(Header, Budget), Reason>
    requires line != [] && line[|line| - 1] == '\n'
  {
    var h := ParseHeader(line, format);
    if h.Err? then Err(h.error)
    else if h.value.oid in seen then Err(DuplicateOid)
    else if h.value.size > MAX_RAW_FILE_BYTES then Err(RawByteLimit)
    else
      var charged := Charge(b, h.value.size);
      if charged.Err? then Err(charged.error) else Ok((h.value, charged.value))
  }

  function Preimage(h: Header, body: Bytes): Bytes {
    h.kind + " " + Decimal(h.size) + "\0" + body
  }

  datatype Step = Step(first: GitObject, charged: Budget, rest: Bytes)

  /** The first object of a stream. */
  function TakeObject(s: Bytes, seen: set<Bytes>, b: Budget, format: Format): (r: Result<Step, Reason>)
    requires s != []
    ensures r.Ok? ==> |r.value.rest| < |s|
  {
    var n := Find(s, '\n');
    if n == |s| then Err(if |s| > MAX_HEADER_BYTES then Framing else ShortRead)
    else
      var admitted := Admit(s[..n + 1], seen, b, format);
      if admitted.Err? then Err(admitted.error) else TakeBody(admitted.value.0, admitted.value.1, s[n + 1..], format)
  }

  function TakeBody(h: Header, charged: Budget, s: Bytes, format: Format): (r: Result<Step, Reason>)
    ensures r.Ok? ==> |r.value.rest| < |s|
  {
    if |s| < h.size + 1 then Err(ShortRead)
    else if s[h.size] != '\n' then Err(Framing)
    else if format.digest(Preimage(h, s[..h.size])) != h.oid then Err(ContentOidMismatch)
    else Ok(Step(GitObject(h.oid, h.kind, s[..h.size]), charged, s[h.size + 1..]))
  }

  /** The whole-input reading of the stream. */
  function Decode(s: Bytes, seen: set<Bytes>, b: Budget, format: Format): Yield
    decreases |s|
  {
    if s == [] then Yield([], None)
    else
      var step := TakeObject(s, seen, b, format);
      if step.Err? then Yield([], Some(step.error))
      else
        var more := Decode(step.value.rest, seen + {step.value.first.oid}, step.value.charged, format);
        Yield([step.value.first] + more.objects, more.failure)
  }

  function HeaderOf(o: GitObject): Header { Header(o.oid, o.kind, |o.body|) }

  function EncodeOne(o: GitObject): Bytes { HeaderLine(HeaderOf(o)) + o.body + "\n" }

  function Encode(objects: seq<GitObject>): Bytes {
    if objects == [] then [] else EncodeOne(objects[0]) + Encode(objects[1..])
  }

  /** A correctly hashed object that is new and within the budget. */
  predicate PresentableOne(o: GitObject, seen: set<Bytes>, b: Budget, format: Format) {
    var h := HeaderOf(o);
    && HeaderOk(h, format)
    && h.oid !in seen
    && h.size <= MAX_RAW_FILE_BYTES
    && Charge(b, h.size).Ok?
    && format.digest(Preimage(h, o.body)) == h.oid
  }

  predicate Presentable(objects: seq<GitObject>, seen: set<Bytes>, b: Budget, format: Format) {
    objects == []
    || (&& PresentableOne(objects[0], seen, b, format)
        && Presentable(objects[1..], seen + {objects[0].oid}, Charge(b, |objects[0].body|).value, format))
  }

  lemma LineEnds(h: Header, format: Format, t: Bytes)
    requires HeaderOk(h, format)
    ensures Find(HeaderLine(h) + t, '\n') == |HeaderLine(h)| - 1
  {
    DecimalNumber(h.size);
    var text := Join(h.oid, h.kind, Decimal(h.size));
    assert Without(text, '\n') by {
      hide Decimal;
      assert Without(h.oid, '\n') && Without(h.kind, '\n') && Without(Decimal(h.size), '\n');
    }
    assert HeaderLine(h) + t == text + ['\n'] + t;
    FindFirst(text, '\n', t);
  }

  lemma TakeEncoded(o: GitObject, tail: Bytes, seen: set<Bytes>, b: Budget, format: Format)
    requires Supported(format) && PresentableOne(o, seen, b, format)
    ensures Charge(b, |o.body|).Ok?
    ensures TakeObject(EncodeOne(o) + tail, seen, b, format) == Ok(Step(o, Charge(b, |o.body|).value, tail))
  {
    hide HeaderLine, Decimal, Preimage, ParseHeader;
    var h := HeaderOf(o);
    var line, rest := HeaderLine(h), o.body + "\n" + tail;
    var s := EncodeOne(o) + tail;
    assert s == line + rest;
    LineEnds(h, format, rest);
    LineIsLine(h);
    assert s[..|line|] == line && s[|line|..] == rest;
    HeaderFits(h, format);
    HeaderRoundTrip(h, format);
    assert rest[..h.size] == o.body && rest[h.size] == '\n' && rest[h.size + 1..] == tail;
  }

  lemma LineIsLine(h: Header)
    ensures HeaderLine(h) != [] && HeaderLine(h)[|HeaderLine(h)| - 1] == '\n'
  {
  }

  lemma EncodeTaken(s: Bytes, seen: set<Bytes>, b: Budget, format: Format)
    requires s != [] && TakeObject(s, seen, b, format).Ok?
    ensures var step := TakeObject(s, seen, b, format).value;
            && s == EncodeOne(step.first) + step.rest
            && PresentableOne(step.first, seen, b, format)
            && step.charged == Charge(b, |step.first.body|).value
  {
    hide HeaderLine, Decimal, Preimage, ParseHeader;
    var n := Find(s, '\n');
    var line, rest := s[..n + 1], s[n + 1..];
    HeaderIsCanonical(line, format);
    var h := Admit(line, seen, b, format).value.0;
    var step := TakeObject(s, seen, b, format).value;
    assert HeaderOf(step.first) == h;
    Framed(line, rest, h.size);
    assert s == line + rest;
  }

  lemma Framed(line: Bytes, rest: Bytes, size: nat)
    requires size < |rest| && rest[size] == '\n'
    ensures line + rest == line + rest[..size] + "\n" + rest[size + 1..]
  {
    assert rest == rest[..size] + ("\n" + rest[size + 1..]);
    assert line + (rest[..size] + ("\n" + rest[size + 1..])) == line + rest[..size] + "\n" + rest[size + 1..];
  }

  /** Every presentable sequence of objects is read back exactly, in order. */
  lemma {:induction false} DecodeEncode(objects: seq<GitObject>, seen: set<Bytes>, b: Budget, format: Format)
    requires (format.width == 40 || format.width == 64) && Presentable(objects, seen, b, format)
    ensures Decode(Encode(objects), seen, b, format) == Yield(objects, None)
  {
    hide TakeObject, EncodeOne, PresentableOne, Charge;
    if objects != [] {
      var o, tail := objects[0], Encode(objects[1..]);
      TakeEncoded(o, tail, seen, b, format);
      EncodedIsNotEmpty(o, tail);
      DecodeEncode(objects[1..], seen + {o.oid}, Charge(b, |o.body|).value, format);
    }
  }

  lemma EncodedIsNotEmpty(o: GitObject, tail: Bytes)
    ensures EncodeOne(o) + tail != []
  {
  }

  /** A stream read to its end without a failure is the encoding of what was read. */
  lemma {:induction false} EncodeDecode(s: Bytes, seen: set<Bytes>, b: Budget, format: Format)
    requires Decode(s, seen, b, format).failure.None?
    ensures var objects := Decode(s, seen, b, format).objects;
            Encode(objects) == s && Presentable(objects, seen, b, format)
    decreases |s|
  {
    hide TakeObject, EncodeOne, PresentableOne;
    if s != [] {
      var step := TakeObject(s, seen, b, format).value;
      EncodeTaken(s, seen, b, format);
      EncodeDecode(step.rest, seen + {step.first.oid}, step.charged, format);
      var objects := Decode(s, seen, b, format).objects;
      assert objects[1..] == Decode(step.rest, seen + {step.first.oid}, step.charged, format).objects;
    }
  }

  // ------------------------------------------------------------ the live pipe

  class HistoryStream {
    /** Bytes read from the pipe and not yet consumed. */
    var output: Bytes
    /** Bytes the process has yet to deliver. */
    var arriving: Bytes
    /** Whether end of file has not been seen. */
    var listening: bool

    ghost predicate Valid()
      reads this
    {
      listening || arriving == []
    }

    ghost function Unread(): Bytes
      reads this
    {
      output + arriving
    }

    /** One read from the pipe: at least a byte, or end of file.  With at most one
        chunk buffered the buffer limit is out of reach. */
    method Pump(calm: bool) returns (ok: bool)
      requires Valid() && listening && |output| <= STREAM_CHUNK_BYTES
      modifies this
      ensures Valid() && Unread() == old(Unread())
      ensures old(output) <= output && |output| <= MAX_GIT_BATCH_BUFFER_BYTES
      ensures |arriving| < |old(arriving)| || !listening || !ok
      ensures |arriving| <= |old(arriving)|
      ensures calm ==> ok
    {
      if !calm {
        var timeout: bool := *;
        if timeout { return false; }
      }
      ok := true;
      if arriving == [] {
        listening := false;
      } else {
        var n: int := *;
        if n < 1 || n > PIPE_READ_BYTES || n > |arriving| { n := 1; }
        output, arriving := output + arriving[..n], arriving[n..];
      }
    }

    method ReadExact(size: nat, calm: bool) returns (r: Result<Bytes, Reason>)
      requires Valid() && size <= STREAM_CHUNK_BYTES
      modifies this
      ensures Valid()
      ensures r.Ok? ==> |r.value| == size && old(Unread()) == r.value + Unread()
      ensures r.Err? ==> r.error == ShortRead || r.error == Timeout
      ensures r == Err(ShortRead) ==> |old(Unread())| < size
      ensures r == Err(Timeout) ==> !calm
    {
      while |output| < size
        invariant Valid() && Unread() == old(Unread())
        decreases |arriving|, listening
      {
        if !listening { return Err(ShortRead); }
        var ok := Pump(calm);
        if !ok { return Err(Timeout); }
      }
      r := Ok(output[..size]);
      output := output[size..];
    }

    method ReadLineOrEof(calm: bool) returns (r: Result<Option<Bytes>, Reason>)
      requires Valid()
      modifies this
      ensures Valid()
      ensures r == Ok(None) ==> old(Unread()) == [] && Unread() == []
      ensures r.Ok? && r.value.Some? ==>
                var n := Find(old(Unread()), '\n');
                n < |old(Unread())| && r.value.value == old(Unread())[..n + 1] && Unread() == old(Unread())[n + 1..]
      ensures r == Err(Framing) ==> Find(old(Unread()), '\n') >= MAX_HEADER_BYTES && |old(Unread())| > MAX_HEADER_BYTES
      ensures r == Err(ShortRead) ==>
                0 < |old(Unread())| <= MAX_HEADER_BYTES && Find(old(Unread()), '\n') == |old(Unread())|
      ensures r.Err? ==> r.error == Framing || r.error == ShortRead || r.error == Timeout
      ensures r == Err(Timeout) ==> !calm
    {
      while Find(output, '\n') == |output|
        invariant Valid() && Unread() == old(Unread())
        decreases |arriving|, listening
      {
        FindLater(output, arriving, '\n');
        if |output| > MAX_HEADER_BYTES { return Err(Framing); }
        if !listening {
          assert Unread() == output;
          if output != [] { return Err(ShortRead); }
          return Ok(None);
        }
        var ok := Pump(calm);
        if !ok { return Err(Timeout); }
      }
      var end := Find(output, '\n') + 1;
      FindLater(output, arriving, '\n');
      assert Unread()[..end] == output[..end] && Unread()[end..] == output[end..] + arriving;
      r := Ok(Some(output[..end]));
      output := output[end..];
    }

    /** Copies the body in bounded pieces. */
    method CopyBody(size: nat, calm: bool) returns (r: Result<Bytes, Reason>)
      requires Valid()
      modifies this
      ensures Valid()
      ensures r.Ok? ==> |r.value| == size && old(Unread()) == r.value + Unread()
      ensures r.Err? ==> r.error == ShortRead || r.error == Timeout
      ensures r == Err(ShortRead) ==> |old(Unread())| < size
      ensures r == Err(Timeout) ==> !calm
    {
      var body: Bytes := [];
      var remaining := size;
      while remaining > 0
        invariant Valid() && remaining >= 0 && |body| + remaining == size
        invariant old(Unread()) == body + Unread()
      {
        var chunk := ReadExact(if remaining < STREAM_CHUNK_BYTES then remaining else STREAM_CHUNK_BYTES, calm);
        if chunk.Err? { return chunk; }
        body := body + chunk.value;
        remaining := remaining - |chunk.value|;
      }
      r := Ok(body);
    }

    /** Reads one object. */
    method NextObject(seen: set<Bytes>, budget: Budget, format: Format, calm: bool)
      returns (r: Result<Option<(GitObject, Budget)>, Reason>)
      requires Valid()
      modifies this
      ensures Valid()
      ensures r.Ok? ==> (r.value.None? <==> old(Unread()) == [])
      ensures r.Ok? && r.value.Some? ==>
                TakeObject(old(Unread()), seen, budget, format) == Ok(Step(r.value.value.0, r.value.value.1, Unread()))
      ensures r.Err? && r.error != Timeout ==>
                old(Unread()) != [] && TakeObject(old(Unread()), seen, budget, format) == Err(r.error)
      ensures r == Err(Timeout) ==> !calm
    {
      hide ParseHeader, Preimage;
      ghost var s := Unread();
      var line := ReadLineOrEof(calm);
      if line.Err? { FramingIsParsed(s, seen, budget, format); return Err(line.error); }
      if line.value.None? { return Ok(None); }
      var admitted := Admit(line.value.value, seen, budget, format);
      if admitted.Err? { NoTimeout(line.value.value, seen, budget, format); return Err(admitted.error); }
      var (h, charged) := admitted.value;
      ghost var rest := Unread();
      var body := CopyBody(h.size, calm);
      if body.Err? { return Err(body.error); }
      var delimiter := ReadExact(1, calm);
      if delimiter.Err? { return Err(delimiter.error); }
      assert rest[..h.size] == body.value && rest[h.size] == delimiter.value[0] && rest[h.size + 1..] == Unread();
      if delimiter.value != "\n" { return Err(Framing); }
      if format.digest(Preimage(h, body.value)) != h.oid { return Err(ContentOidMismatch); }
      r := Ok(Some((GitObject(h.oid, h.kind, body.value), charged)));
    }

    /** Reads every object, on a budget that earlier scans may have charged.  However
        the pipe cuts the bytes, the outcome is that of the whole input; a timeout can
        only cut it short. */
    method Objects(charged: Budget, format: Format, calm: bool) returns (y: Yield)
      requires Valid()
      modifies this
      ensures y.failure != Some(Timeout) ==> y == Decode(old(Unread()), {}, charged, format)
      ensures y.objects <= Decode(old(Unread()), {}, charged, format).objects
      ensures calm ==> y.failure != Some(Timeout)
    {
      hide TakeObject;
      var seen: set<Bytes> := {};
      var budget := charged;
      var objects: seq<GitObject> := [];
      ghost var whole := Decode(Unread(), {}, budget, format);
      while true
        invariant Valid()
        invariant Continues(whole, objects, Decode(Unread(), seen, budget, format))
        decreases |Unread()|
      {
        ghost var s := Unread();
        var next := NextObject(seen, budget, format, calm);
        if next.Err? { return Yield(objects, Some(next.error)); }
        if next.value.None? { return Yield(objects, None); }
        var (o, left) := next.value.value;
        assert objects + [o] + Decode(Unread(), seen + {o.oid}, left, format).objects
               == objects + Decode(s, seen, budget, format).objects;
        objects, seen, budget := objects + [o], seen + {o.oid}, left;
      }
    }
  }

  /** A line too long for the reader is too long for the header parser as well. */
  lemma FramingIsParsed(s: Bytes, seen: set<Bytes>, b: Budget, format: Format)
    ensures s != [] && Find(s, '\n') >= MAX_HEADER_BYTES && |s| > MAX_HEADER_BYTES ==>
              TakeObject(s, seen, b, format) == Err(Framing)
  {
  }

  lemma NoTimeout(line: Bytes, seen: set<Bytes>, b: Budget, format: Format)
    requires line != [] && line[|line| - 1] == '\n'
    ensures Admit(line, seen, b, format).Err? ==> Admit(line, seen, b, format).error != Timeout
  {
  }

  lemma FindIs(t: Bytes, c: char, i: nat)
    requires i < |t| && t[i] == c && forall k :: 0 <= k < i ==> t[k] != c
    ensures Find(t, c) == i
  {
  }

  lemma FindLater(a: Bytes, b: Bytes, c: char)
    ensures Find(a, c) < |a| ==> Find(a + b, c) == Find(a, c)
    ensures Find(a, c) == |a| ==> Find(a + b, c) >= |a|
  {
    assert forall k :: 0 <= k < |a| ==> (a + b)[k] == a[k];
    if Find(a, c) < |a| { FindIs(a + b, c, Find(a, c)); }
  }

  ghost predicate Continues(whole: Yield, done: seq<GitObject>, rest: Yield) {
    whole == Yield(done + rest.objects, rest.failure)
  }
}
