/** Which object streams are read, and why one is refused, said of whole streams: the
    reference that the reader of the git history is compared with. */
module GitReference {
  import opened GitHistory
  import opened Wrappers

  /** An object as `git cat-file --batch` writes it. */
  ghost function Written(o: GitObject): Bytes {
    o.oid + " " + o.kind + " " + Decimal(|o.body|) + "\n" + o.body + "\n"
  }

  ghost predicate Lines(s: Bytes, objects: seq<GitObject>)
    decreases |objects|
  {
    if objects == [] then s == [] else exists rest :: s == Written(objects[0]) + rest && Lines(rest, objects[1..])
  }

  ghost function Volume(objects: seq<GitObject>): nat {
    if objects == [] then 0 else |objects[0].body| + Volume(objects[1..])
  }

  /** A hexadecimal name of the format's width, a known type, at most 4 GiB, and a name
      that is the digest of type, length and bytes. */
  ghost predicate GoodObject(o: GitObject, format: Format) {
    && |o.oid| == format.width > 0 && (forall c :: c in o.oid ==> '0' <= c <= '9' || 'a' <= c <= 'f')
    && (o.kind == "blob" || o.kind == "tree" || o.kind == "commit" || o.kind == "tag")
    && |o.body| <= 4_294_967_296
    && format.digest(o.kind + " " + Decimal(|o.body|) + "\0" + o.body) == o.oid
  }

  /** Good objects with different names, at most 100000 of them and 16 GiB together with
      what was charged before. */
  ghost predicate GoodObjects(objects: seq<GitObject>, seen: set<Bytes>, b: Budget, format: Format) {
    && (forall k :: 0 <= k < |objects| ==> GoodObject(objects[k], format) && objects[k].oid !in seen)
    && (forall i, j :: 0 <= i < j < |objects| ==> objects[i].oid != objects[j].oid)
    && (objects != [] ==>
          && b.entries + |objects| <= 100_000 && b.files + |objects| <= 100_000
          && b.input + Volume(objects) <= 17_179_869_184)
  }

  lemma ObjectExact(o: GitObject, seen: set<Bytes>, b: Budget, format: Format)
    ensures PresentableOne(o, seen, b, format) <==>
              && GoodObject(o, format) && o.oid !in seen
              && b.entries < 100_000 && b.files < 100_000 && b.input + |o.body| <= 17_179_869_184
    ensures EncodeOne(o) == Written(o)
  {
    hide Decimal;
    if IsOid(o.oid, format.width) {
      forall c | c in o.oid ensures '0' <= c <= '9' || 'a' <= c <= 'f' { var i :| 0 <= i < |o.oid| && o.oid[i] == c; }
    }
    assert forall i :: 0 <= i < |o.oid| ==> o.oid[i] in o.oid;
  }

  lemma {:induction false} PresentableExact(objects: seq<GitObject>, seen: set<Bytes>, b: Budget, format: Format)
    ensures Presentable(objects, seen, b, format) <==> GoodObjects(objects, seen, b, format)
  {
    hide GoodObject, PresentableOne;
    if objects != [] {
      var o, rest := objects[0], objects[1..];
      ObjectExact(o, seen, b, format);
      assert forall k :: 0 <= k < |rest| ==> rest[k] == objects[k + 1];
      if PresentableOne(o, seen, b, format) {
        ChargeExact(o, seen, b, format);
        PresentableExact(rest, seen + {o.oid}, Charge(b, |o.body|).value, format);
        MoreObjects(objects, seen, b, format);
      }
    }
  }

  lemma ChargeExact(o: GitObject, seen: set<Bytes>, b: Budget, format: Format)
    requires PresentableOne(o, seen, b, format)
    ensures Charge(b, |o.body|) == Ok(Budget(b.entries + 1, b.files + 1, b.input + |o.body|))
  {
    hide Preimage;
  }

  lemma MoreObjects(objects: seq<GitObject>, seen: set<Bytes>, b: Budget, format: Format)
    requires objects != [] && GoodObject(objects[0], format) && objects[0].oid !in seen
    requires b.entries < 100_000 && b.files < 100_000 && b.input + |objects[0].body| <= 17_179_869_184
    ensures var o := objects[0];
            GoodObjects(objects, seen, b, format) <==>
            GoodObjects(objects[1..], seen + {o.oid}, Budget(b.entries + 1, b.files + 1, b.input + |o.body|), format)
  {
    hide GoodObject;
    var o, rest := objects[0], objects[1..];
    assert Volume(objects) == |o.body| + Volume(rest) && |objects| == |rest| + 1;
    assert rest == [] ==> Volume(rest) == 0;
    if GoodObjects(objects, seen, b, format) {
      forall k | 0 <= k < |rest| ensures GoodObject(rest[k], format) && rest[k].oid !in seen + {o.oid} {
        assert rest[k] == objects[k + 1] && objects[0].oid != objects[k + 1].oid;
      }
      forall i, j | 0 <= i < j < |rest| ensures rest[i].oid != rest[j].oid {
        assert objects[i + 1].oid != objects[j + 1].oid;
      }
    }
    if GoodObjects(rest, seen + {o.oid}, Budget(b.entries + 1, b.files + 1, b.input + |o.body|), format) {
      forall k | 0 <= k < |objects| ensures GoodObject(objects[k], format) && objects[k].oid !in seen {
        if k > 0 { assert objects[k] == rest[k - 1]; }
      }
      forall i, j | 0 <= i < j < |objects| ensures objects[i].oid != objects[j].oid {
        assert objects[j] == rest[j - 1];
        if i > 0 { assert objects[i] == rest[i - 1]; }
      }
    }
  }

  lemma {:induction false} EncodeIsLines(s: Bytes, objects: seq<GitObject>, format: Format)
    ensures Encode(objects) == s <==> Lines(s, objects)
    decreases |objects|
  {
    hide EncodeOne, Written;
    if objects != [] {
      ObjectExact(objects[0], {}, Budget(0, 0, 0), format);
      var tail := Encode(objects[1..]);
      EncodeIsLines(tail, objects[1..], format);
      forall rest ensures Lines(rest, objects[1..]) <==> rest == tail { EncodeIsLines(rest, objects[1..], format); }
    }
  }

  /** A stream is read to its end without a failure exactly if it is good objects written
      one after another, and then those are what is handed out. */
  lemma ReadExactly(s: Bytes, seen: set<Bytes>, b: Budget, format: Format, objects: seq<GitObject>)
    requires format.width == 40 || format.width == 64
    ensures Decode(s, seen, b, format) == Yield(objects, None) <==>
              Lines(s, objects) && GoodObjects(objects, seen, b, format)
  {
    hide Decode, Encode, Presentable, GoodObjects, Lines, Supported;
    EncodeIsLines(s, objects, format);
    PresentableExact(objects, seen, b, format);
    if Decode(s, seen, b, format) == Yield(objects, None) { EncodeDecode(s, seen, b, format); }
    if Presentable(objects, seen, b, format) { DecodeEncode(objects, seen, b, format); }
  }

  /** Three fields and a newline, none of the fields with a space, and the rest of the
      stream. */
  ghost predicate Announces(s: Bytes, oid: Bytes, kind: Bytes, size: Bytes, rest: Bytes) {
    && s == oid + " " + kind + " " + size + "\n" + rest
    && (forall c :: c in oid || c in kind || c in size ==> c != ' ' && c != '\n')
    && |oid| + |kind| + |size| + 3 <= 256
  }

  ghost predicate IsDecimal(t: Bytes) { exists n: nat :: t == Decimal(n) }

  /** What a refusal says of the stream at the object it stops at. */
  ghost predicate Because(reason: Reason, s: Bytes, seen: set<Bytes>, b: Budget, format: Format) {
    match reason
    case Framing =>
      || (forall oid, kind, size, rest :: !Announces(s, oid, kind, size, rest))
      || exists oid, kind, n: nat, rest :: Announces(s, oid, kind, Decimal(n), rest) && n < |rest| && rest[n] != '\n'
    case ShortRead =>
      || ('\n' !in s && |s| <= 256)
      || exists oid, kind, n: nat, rest :: Announces(s, oid, kind, Decimal(n), rest) && |rest| <= n
    case OidMismatch =>
      exists oid, kind, size, rest :: Announces(s, oid, kind, size, rest)
        && (|oid| != format.width || oid == [] || exists c :: c in oid && !('0' <= c <= '9' || 'a' <= c <= 'f'))
    case TypeInvalid =>
      exists oid, kind, size, rest :: Announces(s, oid, kind, size, rest)
        && kind != "blob" && kind != "tree" && kind != "commit" && kind != "tag"
    case SizeInvalid =>
      exists oid, kind, size, rest :: Announces(s, oid, kind, size, rest) && !IsDecimal(size)
    case DuplicateOid => exists oid, kind, size, rest :: Announces(s, oid, kind, size, rest) && oid in seen
    case RawByteLimit =>
      exists oid, kind, n: nat, rest :: Announces(s, oid, kind, Decimal(n), rest) && n > 4_294_967_296
    case PathEntryLimit => b.entries >= 100_000
    case FileCountLimit => b.files >= 100_000
    case InputByteLimit =>
      exists oid, kind, n: nat, rest :: Announces(s, oid, kind, Decimal(n), rest) && b.input + n > 17_179_869_184
    case ContentOidMismatch =>
      exists oid, kind, n: nat, rest :: Announces(s, oid, kind, Decimal(n), rest) && n < |rest| && rest[n] == '\n'
        && format.digest(kind + " " + Decimal(n) + "\0" + rest[..n]) != oid
    case Timeout => false
  }

  lemma FieldsAnnounce(text: Bytes, rest: Bytes)
    requires Without(text, '\n') && |text| < 256 && Fields(text).Some?
    ensures var (a, b, c) := Fields(text).value; Announces(text + "\n" + rest, a, b, c, rest)
  {
    FieldsAreBare(text);
    var (a, b, c) := Fields(text).value;
    hide Fields;
    assert text == a + " " + b + " " + c;
  }

  lemma AnnouncedFields(text: Bytes, rest: Bytes, oid: Bytes, kind: Bytes, size: Bytes, more: Bytes)
    requires Without(text, '\n') && Announces(text + "\n" + rest, oid, kind, size, more)
    ensures Fields(text) == Some((oid, kind, size)) && rest == more && |text| < 256
  {
    hide Fields;
    var other := Join(oid, kind, size);
    var s := text + ['\n'] + rest;
    assert s == other + ['\n'] + more;
    Bare(oid);
    Bare(kind);
    Bare(size);
    JoinWithout(oid, kind, size);
    FindFirst(other, '\n', more);
    FindFirst(text, '\n', rest);
    assert other == s[..|other|] && text == s[..|text|];
    assert rest == s[|text| + 1..] && more == s[|other| + 1..];
    FieldsOfJoin(oid, kind, size);
  }

  lemma Bare(t: Bytes)
    requires ' ' !in t && '\n' !in t
    ensures Without(t, ' ') && Without(t, '\n')
  {
    forall k | 0 <= k < |t| ensures t[k] != ' ' && t[k] != '\n' { assert t[k] in t; }
  }

  lemma JoinWithout(a: Bytes, b: Bytes, c: Bytes)
    requires Without(a, '\n') && Without(b, '\n') && Without(c, '\n')
    ensures Without(Join(a, b, c), '\n')
  {
  }

  lemma FieldsAreBare(text: Bytes)
    requires Fields(text).Some?
    ensures var (a, b, c) := Fields(text).value; ' ' !in a && ' ' !in b && ' ' !in c
    ensures var (a, b, c) := Fields(text).value; |text| == |a| + |b| + |c| + 2
    ensures var (a, b, c) := Fields(text).value; forall x :: x in a || x in b || x in c ==> x in text
  {
    var (a, b, c) := Fields(text).value;
    assert text == Join(a, b, c);
  }

  lemma {:induction false} DecimalIsDigits(t: Bytes)
    ensures CanonicalDecimal(t) <==> IsDecimal(t)
  {
    if CanonicalDecimal(t) { NumberDecimal(t); }
    if n: nat :| t == Decimal(n) { DecimalNumber(n); }
  }

  /** A stream that cannot be read on from some object says why. */
  lemma FailureTells(s: Bytes, seen: set<Bytes>, b: Budget, format: Format)
    requires s != [] && TakeObject(s, seen, b, format).Err?
    ensures Because(TakeObject(s, seen, b, format).error, s, seen, b, format)
  {
    var n := Find(s, '\n');
    if n == |s| {
      assert '\n' !in s;
      assert forall oid, kind, size, rest :: Announces(s, oid, kind, size, rest) ==> '\n' in s;
    } else {
      var text, rest := s[..n], s[n + 1..];
      assert s == text + "\n" + rest && s[..n + 1] == text + "\n" && s[..n + 1][..n] == text;
      LineFailureTells(text, rest, seen, b, format);
    }
  }

  lemma BodyFailureTells(s: Bytes, oid: Bytes, kind: Bytes, n: nat, rest: Bytes,
                         seen: set<Bytes>, b: Budget, format: Format)
    requires Announces(s, oid, kind, Decimal(n), rest)
    ensures oid in seen ==> Because(DuplicateOid, s, seen, b, format)
    ensures n > MAX_RAW_FILE_BYTES ==> Because(RawByteLimit, s, seen, b, format)
    ensures Charge(b, n).Err? ==> Because(Charge(b, n).error, s, seen, b, format)
    ensures forall charged :: TakeBody(Header(oid, kind, n), charged, rest, format).Err? ==>
              Because(TakeBody(Header(oid, kind, n), charged, rest, format).error, s, seen, b, format)
  {
    hide Announces, Decimal;
  }

  lemma LineFailureTells(text: Bytes, rest: Bytes, seen: set<Bytes>, b: Budget, format: Format)
    requires Without(text, '\n')
    requires var s := text + "\n" + rest;
             Find(s, '\n') == |text| && s[..|text| + 1] == text + "\n" && s[|text| + 1..] == rest
             && TakeObject(s, seen, b, format).Err?
    ensures Because(TakeObject(text + "\n" + rest, seen, b, format).error, text + "\n" + rest, seen, b, format)
  {
    hide Fields, Decimal, Number, Find, Announces;
    var s := text + "\n" + rest;
    assert (text + "\n")[..|text|] == text;
    var fields := Fields(text);
    if |text| >= 256 || fields.None? {
      forall oid, kind, size, more ensures !Announces(s, oid, kind, size, more) {
        if Announces(s, oid, kind, size, more) { AnnouncedFields(text, rest, oid, kind, size, more); }
      }
    } else {
      var (oid, kind, size) := fields.value;
      FieldsAnnounce(text, rest);
      assert Announces(s, oid, kind, size, rest);
      DecimalIsDigits(size);
      if !IsOid(oid, format.width) {
        if |oid| == format.width && oid != [] {
          var i :| 0 <= i < |oid| && !(IsDigit(oid[i]) || 'a' <= oid[i] <= 'f');
          assert oid[i] in oid;
        }
      } else if kind !in KINDS {
        assert Because(TypeInvalid, s, seen, b, format);
      } else if !CanonicalDecimal(size) {
        assert Because(SizeInvalid, s, seen, b, format);
      } else {
        NumberDecimal(size);
        var n := Number(size);
        assert Announces(s, oid, kind, Decimal(n), rest);
        BodyFailureTells(s, oid, kind, n, rest, seen, b, format);
      }
    }
  }
}
