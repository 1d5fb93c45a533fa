/** What a ustar header and the end of an archive are, said of positions and bytes: the
    reference that the scanner's checks are compared with. */
module UstarReference {
  import opened Ustar
  import opened Wrappers

  // ----------------------------------------------------------------- numbers

  ghost function Power(k: nat): nat { if k == 0 then 1 else Power(k - 1) * 8 }

  /** The number that octal digits spell, the first one being the highest. */
  ghost function Spelled(digits: Bytes): int {
    if digits == [] then 0 else (digits[0] as int - 48) * Power(|digits| - 1) + Spelled(digits[1..])
  }

  /** Spaces, digits from 0 to 7, and then spaces and NULs. */
  ghost predicate Denotes(field: Bytes, n: nat) {
    exists from, to :: IsNumber(field, from, to) && Spelled(field[from..to]) == n
  }

  ghost predicate IsNumber(field: Bytes, from: int, to: int) {
    && 0 <= from < to <= |field|
    && (forall i :: 0 <= i < from ==> field[i] == 32)
    && (forall i :: from <= i < to ==> 48 <= field[i] <= 55)
    && forall i :: to <= i < |field| ==> field[i] == 0 || field[i] == 32
  }

  lemma {:induction false} SpelledPush(digits: Bytes, d: byte)
    ensures Spelled(digits + [d]) == 8 * Spelled(digits) + (d as int - 48)
  {
    var all := digits + [d];
    if digits == [] {
      assert all == [d] && all[1..] == [];
      assert Power(0) == 1;
    } else {
      SpelledPush(digits[1..], d);
      assert all[0] == digits[0] && all[1..] == digits[1..] + [d];
      var x, p := digits[0] as int - 48, Power(|digits| - 1);
      assert Power(|digits|) == p * 8;
      assert x * (p * 8) == 8 * (x * p);
    }
  }

  lemma {:induction false} ValueIsSpelled(digits: Bytes)
    requires OctalText(digits)
    ensures OctalValue(digits) == Spelled(digits)
  {
    if digits != [] {
      var n := |digits| - 1;
      ValueIsSpelled(digits[..n]);
      SpelledPush(digits[..n], digits[n]);
      assert digits[..n] + [digits[n]] == digits;
    }
  }

  lemma {:induction false} RightStripped(b: Bytes) returns (to: nat)
    ensures to <= |b| && RightStrip(b) == b[..to]
    ensures forall i :: to <= i < |b| ==> b[i] == 0 || b[i] == 32
    ensures to > 0 ==> b[to - 1] != 0 && b[to - 1] != 32
  {
    to := |b|;
    if b != [] && b[|b| - 1] in {NUL, SPACE} {
      to := RightStripped(b[..|b| - 1]);
      assert b[..|b| - 1][..to] == b[..to];
    } else {
      assert b[..to] == b;
    }
  }

  lemma {:induction false} LeftStripped(b: Bytes) returns (from: nat)
    ensures from <= |b| && LeftStrip(b) == b[from..]
    ensures forall i :: 0 <= i < from ==> b[i] == 32
    ensures from < |b| ==> b[from] != 32
  {
    from := 0;
    if b != [] && b[0] == SPACE {
      from := LeftStripped(b[1..]);
      assert b[1..][from..] == b[from + 1..];
      assert forall i :: 0 < i < from + 1 ==> b[i] == b[1..][i - 1];
      from := from + 1;
    }
  }

  /** The number in a field, if there is one, is what the strips leave. */
  lemma OneNumber(field: Bytes, from: int, to: int)
    requires IsNumber(field, from, to)
    ensures LeftStrip(RightStrip(field)) == field[from..to] && OctalText(field[from..to])
  {
    var b := RightStripped(field);
    assert field[to - 1] != 0 && field[to - 1] != 32;
    assert b == to;
    var a := LeftStripped(field[..b]);
    assert forall i :: 0 <= i < b ==> field[..b][i] == field[i];
    assert a <= from by { assert field[..b][from] == field[from] != 32; }
    assert from <= a;
    assert field[..b][a..] == field[from..to];
  }

  lemma StrippedIsNumber(field: Bytes) returns (from: nat, to: nat)
    requires LeftStrip(RightStrip(field)) != [] && OctalText(LeftStrip(RightStrip(field)))
    ensures IsNumber(field, from, to) && field[from..to] == LeftStrip(RightStrip(field))
  {
    to := RightStripped(field);
    from := LeftStripped(field[..to]);
    assert field[..to][from..] == field[from..to];
    var value := field[from..to];
    assert forall i :: from <= i < to ==> field[i] == value[i - from];
    assert forall i :: 0 <= i < from ==> field[..to][i] == field[i];
  }

  /** A field is read as the number it denotes, and refused if it denotes none. */
  lemma OctalExact(field: Bytes, n: nat)
    ensures TarOctal(field) == Some(n) <==> Denotes(field, n)
  {
    hide LeftStrip, RightStrip, OctalValue, Spelled, OctalText;
    var value := LeftStrip(RightStrip(field));
    if TarOctal(field) == Some(n) {
      var from, to := StrippedIsNumber(field);
      ValueIsSpelled(value);
    }
    if Denotes(field, n) {
      var from, to :| IsNumber(field, from, to) && Spelled(field[from..to]) == n;
      OneNumber(field, from, to);
      ValueIsSpelled(value);
      assert value != [] by { NumberIsNotEmpty(field, from, to); }
    }
  }

  lemma NumberIsNotEmpty(field: Bytes, from: int, to: int)
    requires IsNumber(field, from, to)
    ensures 0 <= from < to <= |field| && field[from..to] != []
  {
  }

  // ------------------------------------------------------------------- names

  ghost function Path(components: seq<Bytes>): Bytes {
    if components == [] then [] else if |components| == 1 then components[0]
    else components[0] + [47] + Path(components[1..])
  }

  /** A component without slashes and backslashes that is not empty, a dot or two dots. */
  ghost predicate Component(c: Bytes) {
    && |c| > 0 && c != [46] && c != [46, 46]
    && forall i :: 0 <= i < |c| ==> c[i] != 47 && c[i] != 92
  }

  ghost predicate Components(components: seq<Bytes>, value: Bytes) {
    && |components| > 0 && Path(components) == value
    && forall k :: 0 <= k < |components| ==> Component(components[k])
  }

  lemma PathOfMore(first: Bytes, rest: seq<Bytes>)
    requires rest != []
    ensures Path([first] + rest) == first + [47] + Path(rest)
  {
    assert ([first] + rest)[1..] == rest;
  }

  lemma PathOfOne(first: Bytes)
    ensures Path([first]) == first
  {
  }

  lemma PathGrowsByOne(c: byte, first: Bytes, more: seq<Bytes>)
    ensures Path([[c] + first] + more) == [c] + Path([first] + more)
  {
    hide Path;
    if more == [] {
      PathOfOne(first);
      PathOfOne([c] + first);
      assert [[c] + first] + more == [[c] + first] && [first] + more == [first];
    } else {
      PathOfMore(first, more);
      PathOfMore([c] + first, more);
      var tail := [47] + Path(more);
      assert first + [47] + Path(more) == first + tail && [c] + first + [47] + Path(more) == [c] + first + tail;
    }
  }

  lemma PathGrows(c: byte, rest: seq<Bytes>)
    requires rest != []
    ensures Path([[]] + rest) == [47] + Path(rest)
    ensures Path([[c] + rest[0]] + rest[1..]) == [c] + Path(rest)
  {
    hide Path;
    PathOfMore([], rest);
    PathGrowsByOne(c, rest[0], rest[1..]);
    assert [rest[0]] + rest[1..] == rest;
  }

  lemma {:induction false} PartsOfPath(value: Bytes)
    ensures Path(Parts(value)) == value
    ensures forall k :: 0 <= k < |Parts(value)| ==> SLASH !in Parts(value)[k]
    ensures BACKSLASH !in value ==> forall k :: 0 <= k < |Parts(value)| ==> BACKSLASH !in Parts(value)[k]
  {
    if value != [] {
      PartsOfPath(value[1..]);
      PathGrows(value[0], Parts(value[1..]));
      assert [value[0]] + value[1..] == value;
      hide Path;
    }
  }

  lemma {:induction false} PartsOfComponent(c: Bytes, more: Bytes)
    requires SLASH !in c
    ensures Parts(c) == [c] && Parts(c + [SLASH] + more) == [c] + Parts(more)
  {
    if c == [] {
      assert c + [SLASH] + more == [SLASH] + more && ([SLASH] + more)[1..] == more;
    } else {
      PartsOfComponent(c[1..], more);
      assert (c + [SLASH] + more)[1..] == c[1..] + [SLASH] + more && [c[0]] + c[1..] == c;
    }
  }

  lemma {:induction false} PathIsCut(components: seq<Bytes>)
    requires |components| > 0 && forall k :: 0 <= k < |components| ==> Component(components[k])
    ensures Parts(Path(components)) == components
  {
    assert SLASH !in components[0];
    hide Component, Parts;
    if |components| == 1 {
      PartsOfComponent(components[0], []);
    } else {
      PartsOfComponent(components[0], Path(components[1..]));
      PathIsCut(components[1..]);
      assert components == [components[0]] + components[1..];
    }
  }

  lemma {:induction false} NoBackslash(components: seq<Bytes>)
    requires forall k :: 0 <= k < |components| ==> Component(components[k])
    ensures BACKSLASH !in Path(components)
  {
    if |components| > 1 { NoBackslash(components[1..]); }
  }

  /** A name is safe if and only if it is a path of such components. */
  lemma NameExact(value: Bytes)
    ensures SafeName(value) <==> exists components :: Components(components, value)
  {
    PartsOfPath(value);
    if SafeName(value) {
      forall k | 0 <= k < |Parts(value)| ensures Component(Parts(value)[k]) {
        assert Parts(value)[k] in Parts(value);
      }
      assert Components(Parts(value), value);
    }
    if components :| Components(components, value) {
      PathIsCut(components);
      NoBackslash(components);
      assert forall part :: part in components ==> Component(part);
      assert Component(components[0]);
      if value != [] && |components| > 1 { assert value[0] == components[0][0]; }
      assert value != [] && value[0] == components[0][0];
    }
  }

  /** What is before the first NUL. */
  lemma {:induction false} UpToNulExact(b: Bytes, c: Bytes)
    ensures UpToNul(b) == c <==> c <= b && NUL !in c && (|c| < |b| ==> b[|c|] == 0)
  {
    if b != [] && b[0] != NUL {
      if c != [] {
        UpToNulExact(b[1..], c[1..]);
        assert c == [c[0]] + c[1..];
        assert c <= b <==> c[0] == b[0] && c[1..] <= b[1..];
        assert NUL in c <==> c[0] == NUL || NUL in c[1..];
      }
    }
  }

  // ----------------------------------------------------------------- headers

  ghost function Total(b: Bytes): nat { if b == [] then 0 else b[0] as int + Total(b[1..]) }

  lemma {:induction false} TotalPush(b: Bytes, c: byte)
    ensures Total(b + [c]) == Total(b) + c as int
  {
    if b == [] {
      assert b + [c] == [c] && [c][1..] == [];
    } else {
      assert (b + [c])[1..] == b[1..] + [c];
      TotalPush(b[1..], c);
    }
  }

  lemma {:induction false} SumIsTotal(b: Bytes)
    ensures Sum(b) == Total(b)
  {
    if b != [] {
      var n := |b| - 1;
      SumIsTotal(b[..n]);
      TotalPush(b[..n], b[n]);
      assert b[..n] + [b[n]] == b;
    }
  }

  lemma {:induction false} TotalOfBoth(a: Bytes, b: Bytes)
    ensures Total(a + b) == Total(a) + Total(b)
  {
    if a == [] {
      assert a + b == b;
    } else {
      assert (a + b)[1..] == a[1..] + b;
      TotalOfBoth(a[1..], b);
    }
  }

  /** The header with its checksum field blanked. */
  ghost function Blanked(h: Bytes): Bytes
    requires |h| == 512
  {
    h[..148] + [32, 32, 32, 32, 32, 32, 32, 32] + h[156..]
  }

  lemma ChecksumExact(h: Bytes)
    requires |h| == 512
    ensures Checksum(h) == Total(Blanked(h))
  {
    var blanks: Bytes := [32, 32, 32, 32, 32, 32, 32, 32];
    SumIsTotal(h[..148]);
    SumIsTotal(h[156..]);
    TotalOfBoth(h[..148] + blanks, h[156..]);
    TotalOfBoth(h[..148], blanks);
    BlanksTotal();
  }

  lemma BlanksTotal()
    ensures Total([32, 32, 32, 32, 32, 32, 32, 32]) == 256
  {
    var two: Bytes, four: Bytes := [32, 32], [32, 32, 32, 32];
    assert Total(two) == 64;
    TotalOfBoth(two, two);
    assert two + two == four;
    TotalOfBoth(four, four);
    assert four + four == [32, 32, 32, 32, 32, 32, 32, 32];
  }

  /** `c` is the NUL-terminated text at the start of a field. */
  ghost predicate TextOf(field: Bytes, c: Bytes) {
    c <= field && 0 !in c && (|c| < |field| ==> field[|c|] == 0)
  }

  /** `raw` is a path of safe components, perhaps with one slash behind it. */
  ghost predicate Spells(raw: Bytes, name: Bytes) {
    && (exists components :: Components(components, name))
    && (raw == name || raw == name + [47])
  }

  lemma {:induction false} PathEnds(components: seq<Bytes>)
    requires |components| > 0 && forall k :: 0 <= k < |components| ==> Component(components[k])
    ensures |Path(components)| > 0 && Path(components)[|Path(components)| - 1] != 47
  {
    if |components| > 1 { PathEnds(components[1..]); }
  }

  lemma TrimExact(raw: Bytes, name: Bytes)
    ensures SafeName(Trimmed(raw)) && Trimmed(raw) == name <==> Spells(raw, name)
  {
    NameExact(name);
    hide SafeName;
    if components :| Components(components, name) { PathEnds(components); }
    hide Components;
    if raw == name + [47] { assert Trimmed(raw) == name; }
    if Trimmed(raw) == name && raw != name { assert raw == name + [47]; }
  }

  /** The name of an entry: prefix, slash and name, in UTF-8. */
  ghost predicate Names(h: Bytes, utf8: Bytes -> bool, name: Bytes)
    requires |h| == 512
  {
    exists prefix, last :: TextOf(h[345..500], prefix) && TextOf(h[..100], last) && Whole(prefix, last, utf8, name)
  }

  ghost predicate Whole(prefix: Bytes, last: Bytes, utf8: Bytes -> bool, name: Bytes) {
    var raw := if prefix == [] then last else prefix + [47] + last;
    utf8(raw) && Spells(raw, name)
  }

  lemma WholeExact(prefix: Bytes, last: Bytes, utf8: Bytes -> bool, name: Bytes)
    ensures var raw := Joined(prefix, last);
            utf8(raw) && SafeName(Trimmed(raw)) && Trimmed(raw) == name <==> Whole(prefix, last, utf8, name)
  {
    var raw := Joined(prefix, last);
    assert raw == if prefix == [] then last else prefix + [47] + last by { assert [] + last == last; }
    TrimExact(raw, name);
    hide SafeName, Spells, Trimmed, Joined;
  }

  lemma NamesExact(h: Bytes, utf8: Bytes -> bool, name: Bytes)
    requires |h| == 512
    ensures TarName(h, utf8) == Some(name) <==> Names(h, utf8, name)
  {
    hide UpToNul, SafeName, Trimmed, Joined, Whole, TextOf;
    var a, b := h[345..500], h[..100];
    WholeExact(UpToNul(a), UpToNul(b), utf8, name);
    assert TextOf(a, UpToNul(a)) && TextOf(b, UpToNul(b)) by { TextIsOne(a, UpToNul(a)); TextIsOne(b, UpToNul(b)); }
    if prefix, last :| TextOf(a, prefix) && TextOf(b, last) && Whole(prefix, last, utf8, name) {
      TextIsOne(a, prefix);
      TextIsOne(b, last);
    }
  }

  lemma TextIsOne(field: Bytes, c: Bytes)
    ensures TextOf(field, c) <==> UpToNul(field) == c
  {
    UpToNulExact(field, c);
  }

  /** A header: the magic, the checksum over all other bytes, a size and a name. */
  ghost predicate Header(h: Bytes, utf8: Bytes -> bool, size: nat, name: Bytes) {
    && |h| == 512
    && h[257..262] == [117, 115, 116, 97, 114] && (h[262] == 0 || h[262] == 32)
    && Denotes(h[148..156], Total(Blanked(h)))
    && Denotes(h[124..136], size)
    && Names(h, utf8, name)
  }

  lemma MagicExact(h: Bytes)
    requires |h| == 512
    ensures h[257..263] == MAGIC + [NUL] || h[257..263] == MAGIC + [SPACE] <==>
              h[257..262] == [117, 115, 116, 97, 114] && (h[262] == 0 || h[262] == 32)
  {
    var magic := h[257..263];
    assert magic == h[257..262] + [h[262]];
    if magic == MAGIC + [NUL] { assert magic[..5] == MAGIC && magic[5] == NUL; }
    if magic == MAGIC + [SPACE] { assert magic[..5] == MAGIC && magic[5] == SPACE; }
    assert magic[..5] == h[257..262] && magic[5] == h[262];
  }

  lemma PartsExact(h: Bytes, utf8: Bytes -> bool, size: nat, name: Bytes)
    requires |h| == 512
    ensures Header(h, utf8, size, name) <==>
              && (h[257..263] == MAGIC + [NUL] || h[257..263] == MAGIC + [SPACE])
              && TarOctal(h[148..156]) == Some(Checksum(h))
              && TarOctal(h[124..136]) == Some(size) && TarName(h, utf8) == Some(name)
  {
    hide Denotes, Checksum, Total, Blanked, TarOctal, TarName, Names;
    ChecksumExact(h);
    OctalExact(h[148..156], Checksum(h));
    OctalExact(h[124..136], size);
    NamesExact(h, utf8, name);
    MagicExact(h);
  }

  /** The header checks pass exactly on headers; in particular not on one with a wrong
      checksum. */
  lemma HeaderExact(h: Bytes, utf8: Bytes -> bool)
    ensures ValidHeader(h, utf8) <==> exists size: nat, name :: Header(h, utf8, size, name)
  {
    hide Checksum, TarOctal, TarName;
    if ValidHeader(h, utf8) {
      PartsExact(h, utf8, TarOctal(h[124..136]).value, TarName(h, utf8).value);
    }
    if size: nat, name :| Header(h, utf8, size, name) { PartsExact(h, utf8, size, name); }
  }

  /** What an entry is by its type flag, and how much it may hold. */
  ghost predicate Entered(e: Entry, utf8: Bytes -> bool, visit: Visit) {
    exists name :: Header(e.header, utf8, |e.body|, name) && Flagged(e, name, visit)
  }

  ghost predicate Flagged(e: Entry, name: Bytes, visit: Visit) {
    && |e.header| == 512
    && var flag := e.header[156] as char;
       if flag in "xgLK" then visit == Unsupported(name) && |e.body| <= 65_536
       else if flag == '5' then visit == Folder(name) && e.body == []
       else if flag == '0' || e.header[156] == 0 then visit == Member(name, e.body) && |e.body| <= 2_147_483_648
       else visit == Unsafe(name) && e.body == []
  }

  /** An entry is valid exactly if it is to be visited in some way, and is visited so. */
  lemma EntryExact(e: Entry, utf8: Bytes -> bool)
    ensures ValidEntry(e, utf8) <==> exists visit :: Entered(e, utf8, visit)
    ensures ValidEntry(e, utf8) ==> forall visit :: Entered(e, utf8, visit) <==> visit == VisitOf(e, utf8)
  {
    forall visit ensures Entered(e, utf8, visit) <==> ValidEntry(e, utf8) && visit == VisitOf(e, utf8) {
      VisitExact(e, utf8, visit);
    }
    hide Entered, ValidEntry, VisitOf;
    if ValidEntry(e, utf8) { assert Entered(e, utf8, VisitOf(e, utf8)); }
  }

  lemma VisitExact(e: Entry, utf8: Bytes -> bool, visit: Visit)
    ensures Entered(e, utf8, visit) <==> ValidEntry(e, utf8) && visit == VisitOf(e, utf8)
  {
    hide Checksum, TarOctal, TarName, Header;
    HeaderExact(e.header, utf8);
    if ValidEntry(e, utf8) {
      var name := TarName(e.header, utf8).value;
      PartsExact(e.header, utf8, |e.body|, name);
      FlagExact(e.header[156]);
      assert Header(e.header, utf8, |e.body|, name);
    }
    if name :| Header(e.header, utf8, |e.body|, name) && Flagged(e, name, visit) {
      assert |e.header| == 512 by { HeaderLength(e.header, utf8, |e.body|, name); }
      PartsExact(e.header, utf8, |e.body|, name);
      FlagExact(e.header[156]);
    }
  }

  lemma HeaderLength(h: Bytes, utf8: Bytes -> bool, size: nat, name: Bytes)
    requires Header(h, utf8, size, name)
    ensures |h| == 512
  {
  }

  lemma FlagExact(b: byte)
    ensures b as char in "xgLK" <==> b in {120, 103, 76, 75}
    ensures (b as char == '5' <==> b == 53) && (b as char == '0' <==> b == 48)
  {
  }

  /** The end of an archive: zero bytes in whole blocks, `least` of them and at most 2048
      more. */
  lemma EndExact(b: Bytes, least: nat)
    ensures ZeroBlocks(b, least) <==>
              && (forall i :: 0 <= i < |b| ==> b[i] == 0)
              && exists blocks :: |b| == 512 * blocks && least <= blocks <= least + 2048
  {
    if ZeroBlocks(b, least) { assert |b| == 512 * (|b| / 512); }
    if (forall i :: 0 <= i < |b| ==> b[i] == 0) { assert b == Zeros(|b|); }
  }

  /** The padding is the least that fills the block. */
  lemma PaddingExact(size: nat)
    ensures Padding(size) < 512 && exists blocks :: size + Padding(size) == 512 * blocks
  {
    assert size + Padding(size) == 512 * ((size + Padding(size)) / 512);
  }
}
