/**
 Scanning a stream for forbidden patterns, chunk by chunk, with a 256-byte overlap.
 A byte is modelled as the character with its value.
 */
module PatternStream {
  import opened Wrappers

  const PATTERN_OVERLAP_BYTES: nat := 256

  type Bytes = string

  datatype Pattern = Credential | PrivateKey

  // ---------------------------------------------------------------- patterns

  predicate IsWord(c: char) {
    'A' <= c <= 'Z' || 'a' <= c <= 'z' || '0' <= c <= '9' || c == '_' || c == '-'
  }

  predicate IsUpperOrSpace(c: char) {
    'A' <= c <= 'Z' || c == ' '
  }

  predicate AllWord(s: Bytes) {
    forall i :: 0 <= i < |s| ==> IsWord(s[i])
  }

  const OPENING := "-----BEGIN "
  const CLOSING := "PRIVATE KEY-----"

  /** `m` is matched from its first to its last byte:
      (sk-proj-|AKIA)[A-Za-z0-9_-]{16,} and -----BEGIN [A-Z ]*PRIVATE KEY-----. */
  predicate FullMatch(p: Pattern, m: Bytes) {
    match p
    case Credential => CredentialAfter("sk-proj-", m) || CredentialAfter("AKIA", m)
    case PrivateKey =>
      && |m| >= |OPENING| + |CLOSING|
      && m[..|OPENING|] == OPENING
      && m[|m| - |CLOSING|..] == CLOSING
      && forall i :: |OPENING| <= i < |m| - |CLOSING| ==> IsUpperOrSpace(m[i])
  }

  predicate CredentialAfter(lead: Bytes, m: Bytes) {
    |m| >= |lead| + 16 && m[..|lead|] == lead && AllWord(m[|lead|..])
  }

  /** A regular expression of the kind in use: a text, at least so many characters of
      some ranges, one after the other, either of two. */
  datatype Regex =
    | Word(text: string) | Many(ranges: seq<(char, char)>, least: nat)
    | Then(first: Regex, second: Regex) | Or(left: Regex, right: Regex)

  ghost predicate Matches(r: Regex, s: Bytes) {
    match r
    case Word(text) => s == text
    case Many(ranges, least) => |s| >= least && forall i :: 0 <= i < |s| ==> InSome(s[i], ranges)
    case Then(a, b) => exists i :: 0 <= i <= |s| && Matches(a, s[..i]) && Matches(b, s[i..])
    case Or(a, b) => Matches(a, s) || Matches(b, s)
  }

  ghost predicate InSome(c: char, ranges: seq<(char, char)>) {
    exists k :: 0 <= k < |ranges| && ranges[k].0 <= c <= ranges[k].1
  }

  function Expression(p: Pattern): Regex {
    match p
    case Credential => Then(Or(Word("sk-proj-"), Word("AKIA")), WordChars(16))
    case PrivateKey => Then(Word("-----BEGIN "), Then(UpperChars(), Word("PRIVATE KEY-----")))
  }

  function WordChars(least: nat): Regex {
    Many([('A', 'Z'), ('a', 'z'), ('0', '9'), ('_', '_'), ('-', '-')], least)
  }

  function UpperChars(): Regex { Many([('A', 'Z'), (' ', ' ')], 0) }

  lemma CharsExact(c: char)
    ensures InSome(c, WordChars(0).ranges) <==> IsWord(c)
    ensures InSome(c, UpperChars().ranges) <==> IsUpperOrSpace(c)
  {
    var word, upper := WordChars(0).ranges, UpperChars().ranges;
    assert word[0] == ('A', 'Z') && word[1] == ('a', 'z') && word[2] == ('0', '9') && word[3] == ('_', '_');
    assert word[4] == ('-', '-') && |word| == 5;
    assert upper[0] == ('A', 'Z') && upper[1] == (' ', ' ') && |upper| == 2;
  }

  lemma ManyExact(s: Bytes, least: nat)
    ensures Matches(WordChars(least), s) <==> |s| >= least && AllWord(s)
    ensures Matches(UpperChars(), s) <==> forall i :: 0 <= i < |s| ==> IsUpperOrSpace(s[i])
  {
    forall i | 0 <= i < |s|
      ensures InSome(s[i], WordChars(least).ranges) <==> IsWord(s[i])
      ensures InSome(s[i], UpperChars().ranges) <==> IsUpperOrSpace(s[i])
    {
      CharsExact(s[i]);
    }
    hide InSome, IsWord, IsUpperOrSpace;
  }

  lemma WordThen(text: string, r: Regex, m: Bytes)
    ensures Matches(Then(Word(text), r), m) <==> text <= m && Matches(r, m[|text|..])
  {
    if i :| 0 <= i <= |m| && Matches(Word(text), m[..i]) && Matches(r, m[i..]) { assert i == |text|; }
    if text <= m && Matches(r, m[|text|..]) { assert m[..|text|] == text && Matches(Word(text), m[..|text|]); }
  }

  /** The patterns are what the two regular expressions match. */
  lemma CredentialExact(m: Bytes)
    ensures FullMatch(Credential, m) <==> Matches(Expression(Credential), m)
  {
    var tail := WordChars(16);
    WordThen("sk-proj-", tail, m);
    WordThen("AKIA", tail, m);
    if 8 <= |m| { ManyExact(m[8..], 16); }
    if 4 <= |m| { ManyExact(m[4..], 16); }
    hide WordChars, AllWord;
    assert Matches(Expression(Credential), m) <==>
           Matches(Then(Word("sk-proj-"), tail), m) || Matches(Then(Word("AKIA"), tail), m) by {
      if i :| 0 <= i <= |m| && Matches(Word("sk-proj-"), m[..i]) && Matches(tail, m[i..]) {
        assert Matches(Or(Word("sk-proj-"), Word("AKIA")), m[..i]);
      }
      if i :| 0 <= i <= |m| && Matches(Word("AKIA"), m[..i]) && Matches(tail, m[i..]) {
        assert Matches(Or(Word("sk-proj-"), Word("AKIA")), m[..i]);
      }
    }
  }

  lemma ThenWord(r: Regex, text: string, m: Bytes)
    ensures Matches(Then(r, Word(text)), m) <==>
              |m| >= |text| && m[|m| - |text|..] == text && Matches(r, m[..|m| - |text|])
  {
    if i :| 0 <= i <= |m| && Matches(r, m[..i]) && Matches(Word(text), m[i..]) { assert i == |m| - |text|; }
    if |m| >= |text| && m[|m| - |text|..] == text && Matches(r, m[..|m| - |text|]) {
      assert Matches(Word(text), m[|m| - |text|..]);
    }
  }

  lemma PrivateKeyExact(m: Bytes)
    ensures FullMatch(PrivateKey, m) <==> Matches(Expression(PrivateKey), m)
  {
    hide Matches;
    var middle := UpperChars();
    WordThen("-----BEGIN ", Then(middle, Word("PRIVATE KEY-----")), m);
    if |m| >= 11 { ThenWord(middle, "PRIVATE KEY-----", m[11..]); }
    if |m| >= 27 {
      assert m[11..][|m[11..]| - 16..] == m[|m| - 16..];
      var letters := m[11..][..|m[11..]| - 16];
      ManyExact(letters, 0);
      assert forall k :: 0 <= k < |letters| ==> letters[k] == m[11 + k];
      assert forall k :: 11 <= k < |m| - 16 ==> letters[k - 11] == m[k];
    }
  }

  predicate MatchAt(p: Pattern, s: Bytes, i: nat, j: nat) {
    i <= j <= |s| && FullMatch(p, s[i..j])
  }

  /** Regular-expression search. */
  predicate Occurs(p: Pattern, s: Bytes) {
    exists i: nat, j: nat | i <= |s| && j <= |s| :: MatchAt(p, s, i, j)
  }

  // --------------------------------------------------------------- streaming

  function Concat(chunks: seq<Bytes>): Bytes {
    if chunks == [] then [] else Concat(chunks[..|chunks| - 1]) + chunks[|chunks| - 1]
  }

  function Tail(s: Bytes): Bytes {
    if |s| <= PATTERN_OVERLAP_BYTES then s else s[|s| - PATTERN_OVERLAP_BYTES..]
  }

  /** Where in the whole input the window of chunk `k` begins. */
  function WindowStart(chunks: seq<Bytes>, k: nat): nat
    requires k < |chunks|
  {
    var before := |Concat(chunks[..k])|;
    if before <= PATTERN_OVERLAP_BYTES then 0 else before - PATTERN_OVERLAP_BYTES
  }

  function Window(chunks: seq<Bytes>, k: nat): Bytes
    requires k < |chunks|
  {
    Tail(Concat(chunks[..k])) + chunks[k]
  }

  /** One of the first `n` windows shows the pattern. */
  ghost predicate Seen(p: Pattern, chunks: seq<Bytes>, n: nat)
    requires n <= |chunks|
  {
    exists k: nat :: k < n && Occurs(p, Window(chunks, k))
  }

  ghost predicate Detected(p: Pattern, chunks: seq<Bytes>) {
    Seen(p, chunks, |chunks|)
  }

  lemma SeenLater(chunks: seq<Bytes>, n: nat)
    requires n <= |chunks|
    ensures forall p :: Seen(p, chunks, n) ==> Detected(p, chunks)
  {
    hide Occurs, Window;
  }

  lemma SeenNext(p: Pattern, chunks: seq<Bytes>, n: nat)
    requires n < |chunks|
    ensures Seen(p, chunks, n + 1) <==> Seen(p, chunks, n) || Occurs(p, Window(chunks, n))
  {
    hide Occurs, Window;
  }

  lemma WindowIsPartOfWhole(chunks: seq<Bytes>, k: nat)
    requires k < |chunks|
    ensures |Concat(chunks[..k + 1])| <= |Concat(chunks)|
    ensures WindowStart(chunks, k) <= |Concat(chunks[..k + 1])|
    ensures Window(chunks, k) == Concat(chunks)[WindowStart(chunks, k)..|Concat(chunks[..k + 1])|]
  {
    ConcatPrefix(chunks, k + 1);
    var front := chunks[..k + 1];
    assert front[..|front| - 1] == chunks[..k] && front[|front| - 1] == chunks[k];
  }

  lemma {:induction false} ConcatPrefix(chunks: seq<Bytes>, k: nat)
    requires k <= |chunks|
    ensures Concat(chunks[..k]) <= Concat(chunks)
  {
    if k == |chunks| {
      assert chunks[..k] == chunks;
    } else {
      var n := |chunks| - 1;
      ConcatPrefix(chunks[..n], k);
      assert chunks[..n][..k] == chunks[..k];
    }
  }

  /** The match [i, j) of the whole input lies inside the window of chunk `k`. */
  ghost predicate InWindow(p: Pattern, chunks: seq<Bytes>, k: nat, i: nat, j: nat) {
    && k < |chunks|
    && WindowStart(chunks, k) <= i
    && j <= |Concat(chunks[..k + 1])|
    && MatchAt(p, Concat(chunks), i, j)
  }

  lemma ShiftIntoWhole(p: Pattern, chunks: seq<Bytes>, k: nat, i: nat, j: nat)
    requires k < |chunks| && MatchAt(p, Window(chunks, k), i, j)
    ensures InWindow(p, chunks, k, WindowStart(chunks, k) + i, WindowStart(chunks, k) + j)
  {
    hide FullMatch;
    WindowIsPartOfWhole(chunks, k);
    var start := WindowStart(chunks, k);
    assert Window(chunks, k)[i..j] == Concat(chunks)[start + i..start + j];
  }

  lemma ShiftIntoWindow(p: Pattern, chunks: seq<Bytes>, k: nat, i: nat, j: nat)
    requires InWindow(p, chunks, k, i, j)
    ensures Occurs(p, Window(chunks, k))
  {
    hide FullMatch, Concat, Window;
    WindowIsPartOfWhole(chunks, k);
    var start := WindowStart(chunks, k);
    hide WindowStart;
    assert Window(chunks, k)[i - start..j - start] == Concat(chunks)[i..j];
    assert MatchAt(p, Window(chunks, k), i - start, j - start);
  }

  /** For any pattern and any way of cutting the input: the scan reports exactly the
      matches that lie inside one window. */
  lemma DetectedIffInOneWindow(p: Pattern, chunks: seq<Bytes>)
    ensures Detected(p, chunks) <==> exists k: nat, i: nat, j: nat :: InWindow(p, chunks, k, i, j)
  {
    hide MatchAt, InWindow, Window;
    if Detected(p, chunks) {
      var k: nat :| k < |chunks| && Occurs(p, Window(chunks, k));
      var i: nat, j: nat :| i <= |Window(chunks, k)| && j <= |Window(chunks, k)| && MatchAt(p, Window(chunks, k), i, j);
      ShiftIntoWhole(p, chunks, k, i, j);
    }
    if k: nat, i: nat, j: nat :| InWindow(p, chunks, k, i, j) {
      ShiftIntoWindow(p, chunks, k, i, j);
      assert k < |chunks| by { WindowHasChunk(p, chunks, k, i, j); }
    }
  }

  lemma WindowHasChunk(p: Pattern, chunks: seq<Bytes>, k: nat, i: nat, j: nat)
    requires InWindow(p, chunks, k, i, j)
    ensures k < |chunks|
  {
  }

  /** The chunk that holds byte `b` of the input. */
  lemma {:induction false} ChunkOf(chunks: seq<Bytes>, b: nat) returns (k: nat)
    requires b < |Concat(chunks)|
    ensures k < |chunks| && |Concat(chunks[..k])| <= b < |Concat(chunks[..k + 1])|
  {
    var n := |chunks| - 1;
    if |Concat(chunks[..n])| <= b {
      k := n;
      assert chunks[..n + 1] == chunks;
    } else {
      k := ChunkOf(chunks[..n], b);
      assert chunks[..n][..k] == chunks[..k] && chunks[..n][..k + 1] == chunks[..k + 1];
    }
  }

  /** Nothing is reported that is not there, and a match of at most 257 bytes is
      reported however the input is cut. */
  lemma OverlapSuffices(p: Pattern, chunks: seq<Bytes>)
    ensures Detected(p, chunks) ==> Occurs(p, Concat(chunks))
    ensures (exists i: nat, j: nat :: MatchAt(p, Concat(chunks), i, j) && j - i <= 257) ==>
              Detected(p, chunks)
  {
    DetectedIffInOneWindow(p, chunks);
    if i: nat, j: nat :| MatchAt(p, Concat(chunks), i, j) && j - i <= PATTERN_OVERLAP_BYTES + 1 {
      var k := ChunkOf(chunks, j - 1);
      assert InWindow(p, chunks, k, i, j);
    }
  }

  /** A credential is never longer than it must be. */
  lemma ShortestCredential(s: Bytes, i: nat, j: nat) returns (end: nat)
    requires MatchAt(Credential, s, i, j)
    ensures MatchAt(Credential, s, i, end) && end - i <= 24
  {
    var m := s[i..j];
    var lead := if CredentialAfter("AKIA", m) then "AKIA" else "sk-proj-";
    end := i + |lead| + 16;
    var short := s[i..end];
    assert short[..|lead|] == m[..|lead|];
    assert forall x :: 0 <= x < |short[|lead|..]| ==> short[|lead|..][x] == m[|lead|..][x];
    assert CredentialAfter(lead, short);
  }

  /** Credentials are found independently of the chunking. */
  lemma CredentialsAreExact(chunks: seq<Bytes>)
    ensures Detected(Credential, chunks) <==> Occurs(Credential, Concat(chunks))
  {
    OverlapSuffices(Credential, chunks);
    var whole := Concat(chunks);
    if i: nat, j: nat :| i <= |whole| && j <= |whole| && MatchAt(Credential, whole, i, j) {
      var end := ShortestCredential(whole, i, j);
      assert MatchAt(Credential, whole, i, end) && end - i <= PATTERN_OVERLAP_BYTES + 1;
    }
  }

  // ----------------------------------------------- the unbounded private key

  /** A key header with `n` letters in the middle. */
  function LongKey(n: nat): Bytes {
    OPENING + seq(n, _ => 'A') + CLOSING
  }

  const MEMBER_PREFIX_BYTES: nat := 512
  const STREAM_CHUNK_BYTES: nat := 1024 * 1024

  /** A source read to its end in full chunks. */
  function Reads(s: Bytes): seq<Bytes> {
    if |s| <= STREAM_CHUNK_BYTES then (if s == [] then [] else [s])
    else [s[..STREAM_CHUNK_BYTES]] + Reads(s[STREAM_CHUNK_BYTES..])
  }

  /** The chunks in which an archive member arrives: its first 512 bytes, which were
      read to look at its kind, then full reads. */
  function MemberChunks(s: Bytes): seq<Bytes> {
    if |s| <= MEMBER_PREFIX_BYTES then (if s == [] then [] else [s])
    else [s[..MEMBER_PREFIX_BYTES]] + Reads(s[MEMBER_PREFIX_BYTES..])
  }

  lemma {:induction false} ConcatPush(first: Bytes, chunks: seq<Bytes>)
    ensures Concat([first] + chunks) == first + Concat(chunks)
  {
    if chunks == [] {
      assert Concat([first]) == [] + first;
    } else {
      var n := |chunks| - 1;
      ConcatPush(first, chunks[..n]);
      assert ([first] + chunks)[..n + 1] == [first] + chunks[..n];
      assert first + (Concat(chunks[..n]) + chunks[n]) == (first + Concat(chunks[..n])) + chunks[n];
    }
  }

  lemma {:induction false} ReadsAreAll(s: Bytes)
    ensures Concat(Reads(s)) == s
    ensures forall k :: 0 <= k < |Reads(s)| ==>
              0 < |Reads(s)[k]| <= 1_048_576 && (k + 1 < |Reads(s)| ==> |Reads(s)[k]| == 1_048_576)
  {
    if |s| <= STREAM_CHUNK_BYTES {
      assert s != [] ==> Concat([s]) == [] + s == s;
    } else {
      ReadsAreAll(s[STREAM_CHUNK_BYTES..]);
      ConcatPush(s[..STREAM_CHUNK_BYTES], Reads(s[STREAM_CHUNK_BYTES..]));
    }
  }

  lemma MemberChunksAreAll(s: Bytes)
    requires s != []
    ensures Concat(MemberChunks(s)) == s
    ensures |MemberChunks(s)| > 0
    ensures |MemberChunks(s)[0]| == if |s| <= MEMBER_PREFIX_BYTES then |s| else MEMBER_PREFIX_BYTES
  {
    if |s| <= MEMBER_PREFIX_BYTES {
      assert Concat([s]) == [] + s == s;
    } else {
      ReadsAreAll(s[MEMBER_PREFIX_BYTES..]);
      ConcatPush(s[..MEMBER_PREFIX_BYTES], Reads(s[MEMBER_PREFIX_BYTES..]));
    }
  }

  lemma LongKeyLetter(n: nat, x: nat)
    requires x < |LongKey(n)|
    ensures |LongKey(n)| == n + 27
    ensures LongKey(n)[x] == 'B' ==> x == 5
    ensures LongKey(n)[x] == 'Y' ==> x == n + 21
  {
    if x >= n + 11 { assert LongKey(n)[x] == CLOSING[x - n - 11]; }
  }

  lemma LongKeyMatches(n: nat)
    ensures MatchAt(PrivateKey, LongKey(n), 0, |LongKey(n)|)
  {
    assert LongKey(n)[0..|LongKey(n)|] == LongKey(n);
  }

  /** The only match in it is all of it. */
  lemma LongKeyMatch(n: nat, i: nat, j: nat)
    requires MatchAt(PrivateKey, LongKey(n), i, j)
    ensures i == 0 && j == n + 27
  {
    hide LongKey;
    var s := LongKey(n);
    var m := s[i..j];
    assert s[i + 5] == m[..|OPENING|][5] == 'B';
    assert s[j - 6] == m[|m| - |CLOSING|..][10] == 'Y';
    LongKeyLetter(n, i + 5);
    LongKeyLetter(n, j - 6);
  }

  /** However the rest is cut, a window that holds the match holds it in a first
      chunk longer than the overlap. */
  lemma OnlyInFirstChunk(n: nat, chunks: seq<Bytes>, k: nat, i: nat, j: nat)
    requires InWindow(PrivateKey, chunks, k, i, j) && Concat(chunks) == LongKey(n)
    requires |chunks[0]| > PATTERN_OVERLAP_BYTES
    ensures n + 27 <= |chunks[0]|
  {
    LongKeyMatch(n, i, j);
    hide LongKey, MatchAt;
    FirstChunk(chunks);
    if k > 0 { LaterWindows(chunks, k); }
  }

  lemma FoundInFirstChunk(n: nat, chunks: seq<Bytes>)
    requires |chunks| > 0 && Concat(chunks) == LongKey(n) && |chunks[0]| == n + 27
    ensures InWindow(PrivateKey, chunks, 0, 0, n + 27)
  {
    LongKeyMatches(n);
    LongKeyLetter(n, 0);
    hide LongKey, MatchAt;
    FirstChunk(chunks);
  }

  /** The private-key pattern has an unbounded middle.  In an archive member a key
      header that fits the first 512 bytes is found, and a longer one is missed. */
  lemma LongKeyIsMissed(n: nat)
    ensures Occurs(PrivateKey, Concat(MemberChunks(LongKey(n))))
    ensures Detected(PrivateKey, MemberChunks(LongKey(n))) <==> n + 27 <= 512
  {
    LongKeyMatches(n);
    LongKeyLetter(n, 0);
    hide LongKey, MatchAt, Seen, MemberChunks, Detected, InWindow;
    var s := LongKey(n);
    MemberChunksAreAll(s);
    var chunks := MemberChunks(s);
    DetectedIffInOneWindow(PrivateKey, chunks);
    if n + 27 <= MEMBER_PREFIX_BYTES {
      FoundInFirstChunk(n, chunks);
    } else {
      forall k: nat, i: nat, j: nat ensures !InWindow(PrivateKey, chunks, k, i, j) {
        if InWindow(PrivateKey, chunks, k, i, j) { OnlyInFirstChunk(n, chunks, k, i, j); }
      }
    }
  }

  /** And 257 bytes are all that is promised: a match of 258 bytes cut before its last one
      is missed. */
  lemma OverlapIsTight()
    ensures var s := LongKey(231);
            |s| == 258 && Occurs(PrivateKey, s) && !Detected(PrivateKey, [s[..257], s[257..]])
  {
    var s := LongKey(231);
    LongKeyMatches(231);
    LongKeyLetter(231, 0);
    hide LongKey, MatchAt, Seen, Detected, InWindow;
    var chunks := [s[..257], s[257..]];
    assert Concat(chunks) == s by {
      ConcatPush(s[..257], [s[257..]]);
      ConcatPush(s[257..], []);
      assert chunks == [s[..257]] + [s[257..]] && [s[257..]] == [s[257..]] + [];
    }
    DetectedIffInOneWindow(PrivateKey, chunks);
    forall k: nat, i: nat, j: nat ensures !InWindow(PrivateKey, chunks, k, i, j) {
      if InWindow(PrivateKey, chunks, k, i, j) { OnlyInFirstChunk(231, chunks, k, i, j); }
    }
  }

  lemma FirstChunk(chunks: seq<Bytes>)
    requires |chunks| > 0
    ensures WindowStart(chunks, 0) == 0 && Concat(chunks[..1]) == chunks[0]
  {
    assert chunks[..1] == [chunks[0]] && [chunks[0]][..0] == [] && chunks[..0] == [];
  }

  /** No window but the first reaches back to the beginning of a long input. */
  lemma LaterWindows(chunks: seq<Bytes>, k: nat)
    requires 0 < k < |chunks|
    ensures |chunks[0]| > PATTERN_OVERLAP_BYTES ==> WindowStart(chunks, k) > 0
  {
    FirstChunk(chunks);
    ConcatPrefix(chunks[..k], 1);
    assert chunks[..k][..1] == chunks[..1];
  }

  // ------------------------------------------------------------ the scan loop

  datatype Finding = Found(pattern: Pattern) | ByteLimit | ReadFailed

  /** The scan over the chunks a source delivers. */
  method PatternsStream(chunks: seq<Bytes>, expectedSize: Option<nat>, byteLimit: nat) returns (findings: seq<Finding>)
    ensures forall i, j :: 0 <= i < j < |findings| ==> findings[i] != findings[j]
    ensures |Concat(chunks)| <= byteLimit && (expectedSize.Some? ==> expectedSize.value == |Concat(chunks)|) ==>
              && (Found(Credential) in findings <==> Detected(Credential, chunks))
              && (Found(PrivateKey) in findings <==> Detected(PrivateKey, chunks))
              && ByteLimit !in findings && ReadFailed !in findings
    ensures expectedSize.Some? && expectedSize.value > byteLimit ==> findings == [ByteLimit]
    ensures |Concat(chunks)| > byteLimit && expectedSize.None? ==> ByteLimit in findings
    ensures expectedSize.Some? && expectedSize.value != |Concat(chunks)| ==>
              ByteLimit in findings || ReadFailed in findings
    ensures Found(Credential) in findings ==> Detected(Credential, chunks)
    ensures Found(PrivateKey) in findings ==> Detected(PrivateKey, chunks)
  {
    hide Occurs, Concat, Tail;
    findings := [];
    if expectedSize.Some? && expectedSize.value > byteLimit { return [ByteLimit]; }
    var total, tail, matched := 0, [], {};
    ConcatNone(chunks);
    var k := 0;
    while k < |chunks|
      invariant 0 <= k <= |chunks|
      invariant total == |Concat(chunks[..k])| <= byteLimit
      invariant expectedSize.Some? ==> total <= expectedSize.value
      invariant tail == Tail(Concat(chunks[..k]))
      invariant forall i, j :: 0 <= i < j < |findings| ==> findings[i] != findings[j]
      invariant forall i :: 0 <= i < |findings| ==> findings[i].Found? && findings[i].pattern in matched
      invariant forall p :: p in matched ==> Found(p) in findings
      invariant Credential in matched <==> Seen(Credential, chunks, k)
      invariant PrivateKey in matched <==> Seen(PrivateKey, chunks, k)
    {
      var chunk := chunks[k];
      ConcatNext(chunks, k);
      SeenLater(chunks, k);
      total := total + |chunk|;
      if total > byteLimit { return findings + [ByteLimit]; }
      if expectedSize.Some? && total > expectedSize.value { return findings + [ReadFailed]; }
      var window := tail + chunk;
      assert window == Window(chunks, k);
      SeenNext(Credential, chunks, k);
      SeenNext(PrivateKey, chunks, k);
      if Credential !in matched && Occurs(Credential, window) {
        matched, findings := matched + {Credential}, findings + [Found(Credential)];
      }
      if PrivateKey !in matched && Occurs(PrivateKey, window) {
        matched, findings := matched + {PrivateKey}, findings + [Found(PrivateKey)];
      }
      tail := Tail(window);
      k := k + 1;
    }
    assert chunks[..k] == chunks;
    if expectedSize.Some? && total != expectedSize.value { findings := findings + [ReadFailed]; }
  }

  lemma ConcatNone(chunks: seq<Bytes>)
    ensures Concat(chunks[..0]) == [] && Tail([]) == []
  {
  }

  lemma ConcatNext(chunks: seq<Bytes>, k: nat)
    requires k < |chunks|
    ensures |Concat(chunks[..k + 1])| == |Concat(chunks[..k])| + |chunks[k]| <= |Concat(chunks)|
    ensures Tail(Concat(chunks[..k + 1])) == Tail(Tail(Concat(chunks[..k])) + chunks[k])
  {
    ConcatPrefix(chunks, k + 1);
    assert chunks[..k + 1][..k] == chunks[..k];
    TailOfTail(Concat(chunks[..k]), chunks[k]);
  }

  lemma TailOfTail(a: Bytes, b: Bytes)
    ensures Tail(Tail(a) + b) == Tail(a + b)
  {
  }
}
