/** blob/store.go: hashes, the internal URIs that name them, and the scan that finds the URIs in a document.
    Content is a sequence of bytes. */
module BlobScan {
  import opened Wrappers

  const PREFIX_LENGTH := 17

  function UriPrefix(): (r: seq<char>)
    ensures |r| == PREFIX_LENGTH
  {
    "amoxtli://images/"
  }

  const HASH_LENGTH := 64

  predicate IsHex(c: char) { '0' <= c <= '9' || 'a' <= c <= 'f' || 'A' <= c <= 'F' }

  predicate Valid(hash: seq<char>) { |hash| == HASH_LENGTH && forall c | c in hash :: IsHex(c) }

  function Uri(hash: seq<char>): seq<char> { UriPrefix() + hash }

  /** sub stands in s at p. */
  predicate At(s: seq<char>, sub: seq<char>, p: nat) { p + |sub| <= |s| && s[p..p + |sub|] == sub }

  /** bytes.Index: the first occurrence, or -1. */
  function Index(s: seq<char>, sub: seq<char>): (r: int)
    ensures r >= -1
    ensures r < 0 ==> forall p: nat :: !At(s, sub, p)
    ensures r >= 0 ==> r + |sub| <= |s| && At(s, sub, r) && forall p: nat | p < r :: !At(s, sub, p)
  {
    IndexFrom(s, sub, 0)
  }

  function IndexFrom(s: seq<char>, sub: seq<char>, from: nat): (r: int)
    requires forall p: nat | p < from :: !At(s, sub, p)
    ensures r >= -1
    ensures r < 0 ==> forall p: nat :: !At(s, sub, p)
    ensures r >= 0 ==> r + |sub| <= |s| && At(s, sub, r) && forall p: nat | p < r :: !At(s, sub, p)
    decreases |s| - from
  {
    if from + |sub| > |s| then -1
    else if At(s, sub, from) then from
    else IndexFrom(s, sub, from + 1)
  }

  function Scan(content: seq<char>): seq<seq<char>> {
    var index := Index(content, UriPrefix());
    if index < 0 then []
    else
      var rest := content[index + PREFIX_LENGTH..];
      if |rest| < HASH_LENGTH then []
      else if Valid(rest[..HASH_LENGTH]) then [rest[..HASH_LENGTH]] + Scan(rest[HASH_LENGTH..])
      else Scan(rest)
  }

  method ScanHashes(content: seq<char>) returns (hashes: seq<seq<char>>)
    ensures hashes == Scan(content)
  {
    hide UriPrefix, Valid, At, Index, IndexFrom;
    hashes := [];
    var rest := content;
    while true
      invariant hashes + Scan(rest) == Scan(content)
      decreases |rest|
    {
      var index := Index(rest, UriPrefix());
      if index < 0 { return; }
      rest := rest[index + PREFIX_LENGTH..];
      if |rest| < HASH_LENGTH { return; }
      var hash := rest[..HASH_LENGTH];
      if Valid(hash) {
        ghost var tail := Scan(rest[HASH_LENGTH..]);
        assert hashes + ([hash] + tail) == hashes + [hash] + tail;
        hashes := hashes + [hash];
        rest := rest[HASH_LENGTH..];
      }
    }
  }

  // ---- what the scan finds ----

  /** A URI with a valid hash stands at p. */
  predicate Occurs(content: seq<char>, p: nat) {
    At(content, UriPrefix(), p) && p + PREFIX_LENGTH + HASH_LENGTH <= |content| && Valid(HashAt(content, p))
  }

  function HashAt(content: seq<char>, p: nat): seq<char>
    requires p + PREFIX_LENGTH + HASH_LENGTH <= |content|
  {
    content[p + PREFIX_LENGTH..p + PREFIX_LENGTH + HASH_LENGTH]
  }

  /** An occurrence counts unless its first byte is the last byte of the hash of one that counts. */
  predicate Accepted(content: seq<char>, p: nat) {
    Occurs(content, p) && (p >= 80 ==> !Accepted(content, p - 80))
  }

  /** The hashes of the occurrences that count, from p on, in order. */
  function AcceptedFrom(content: seq<char>, p: nat): seq<seq<char>>
    decreases |content| - p
  {
    if p + PREFIX_LENGTH + HASH_LENGTH > |content| then []
    else (if Accepted(content, p) then [HashAt(content, p)] else []) + AcceptedFrom(content, p + 1)
  }

  lemma PrefixBytes(content: seq<char>, p: nat)
    ensures At(content, UriPrefix(), p) ==>
      p + 16 < |content| && forall d | 0 <= d < 17 :: content[p + d] == UriPrefix()[d]
  {
    if At(content, UriPrefix(), p) {
      forall d | 0 <= d < 17
        ensures content[p + d] == UriPrefix()[d]
      {
        assert content[p..p + 17][d] == UriPrefix()[d];
      }
    }
  }

  lemma HashBytes(content: seq<char>, q: nat)
    ensures Occurs(content, q) ==> forall k | q + 17 <= k < q + 81 :: IsHex(content[k])
  {
    if Occurs(content, q) {
      forall k | q + 17 <= k < q + 81 ensures IsHex(content[k]) {
        assert HashAt(content, q)[k - q - 17] == content[k];
      }
    }
  }

  /** Two URIs overlap in one byte only: the last of the first one's hash. */
  lemma NoOverlap(content: seq<char>, q: nat, p: nat)
    requires At(content, UriPrefix(), q)
    requires q < p < q + 17 || (Occurs(content, q) && q + 17 <= p < q + 80)
    ensures !At(content, UriPrefix(), p)
  {
    PrefixBytes(content, q);
    PrefixBytes(content, p);
    HashBytes(content, q);
    assert UriPrefix()[0] == 'a' && UriPrefix()[1] == 'm' && !IsHex('m');
    assert forall d | 0 < d < 17 && d != 12 :: UriPrefix()[d] != 'a';
    assert UriPrefix()[13] == 'g';
  }

  /** No occurrence from a up to b counts. */
  ghost predicate Quiet(content: seq<char>, a: nat, b: nat) { forall p: nat | a <= p < b :: !Accepted(content, p) }

  /** No occurrence that counts reaches past s from before it. */
  ghost predicate Clean(content: seq<char>, s: nat) { Quiet(content, if s < 80 then 0 else s - 80, s) }

  lemma {:induction false} SkipTo(content: seq<char>, s: nat, t: nat)
    requires s <= t && Quiet(content, s, t)
    ensures AcceptedFrom(content, s) == AcceptedFrom(content, t)
    decreases t - s
  {
    hide UriPrefix;
    if s < t { SkipTo(content, s + 1, t); }
  }

  lemma TailAt(content: seq<char>, s: nat, p: nat)
    requires s <= |content|
    ensures At(content[s..], UriPrefix(), p) <==> At(content, UriPrefix(), s + p)
  {
    hide UriPrefix;
    if s + p + 17 <= |content| { assert content[s..][p..p + 17] == content[s + p..s + p + 17]; }
  }

  /** Nothing counts before the next prefix, or before the end when there is none. */
  lemma QuietBefore(content: seq<char>, s: nat, i: nat)
    requires s <= i <= |content|
    requires var index := Index(content[s..], UriPrefix()); i == if index < 0 then |content| else s + index
    ensures Quiet(content, s, i)
  {
    hide UriPrefix;
    forall p: nat | s <= p < i ensures !Accepted(content, p) { TailAt(content, s, p - s); }
  }

  /** After an occurrence that counts, the next one starts past its hash. */
  lemma QuietAfter(content: seq<char>, i: nat)
    requires Accepted(content, i)
    ensures Quiet(content, i + 1, i + 81)
  {
    hide UriPrefix;
    forall p: nat | i < p < i + 80 ensures !Accepted(content, p) { NoOverlap(content, i, p); }
    assert i + 80 - 80 == i;
  }

  /** Inside a prefix no other one starts. */
  lemma QuietInside(content: seq<char>, i: nat)
    requires At(content, UriPrefix(), i) && !Occurs(content, i)
    ensures Quiet(content, i, i + 17)
  {
    hide UriPrefix;
    forall p: nat | i < p < i + 17 ensures !Accepted(content, p) { NoOverlap(content, i, p); }
  }

  lemma CountsHere(content: seq<char>, s: nat, i: nat)
    requires s <= i && Clean(content, s) && Quiet(content, s, i) && Occurs(content, i)
    ensures Accepted(content, i)
  {
    hide UriPrefix;
  }

  lemma CleanInside(content: seq<char>, s: nat, i: nat)
    requires s <= i && Clean(content, s) && Quiet(content, s, i) && Quiet(content, i, i + 17)
    ensures Clean(content, i + 17)
  {
    hide UriPrefix;
    hide Accepted;
  }

  /** At a prefix: a valid hash counts, and the scan goes on past it; otherwise it goes on past the prefix. */
  lemma PrefixStep(content: seq<char>, s: nat, i: nat)
    requires s <= i && i + 81 <= |content| && Clean(content, s) && At(content, UriPrefix(), i) && Quiet(content, s, i)
    ensures if Valid(HashAt(content, i))
      then Clean(content, i + 81) && AcceptedFrom(content, i) == [HashAt(content, i)] + AcceptedFrom(content, i + 81)
      else Clean(content, i + 17) && AcceptedFrom(content, i) == AcceptedFrom(content, i + 17)
  {
    hide UriPrefix, At, Quiet, Accepted, Valid;
    if Valid(HashAt(content, i)) {
      CountsHere(content, s, i);
      QuietAfter(content, i);
      SkipTo(content, i + 1, i + 81);
    } else {
      QuietInside(content, i);
      CleanInside(content, s, i);
      SkipTo(content, i, i + 17);
    }
  }

  lemma ScanStep(content: seq<char>, s: nat)
    requires s <= |content|
    ensures var index := Index(content[s..], UriPrefix()); var i := s + index;
      && (index < 0 ==> Scan(content[s..]) == [])
      && (index >= 0 ==> i + 17 <= |content| && At(content, UriPrefix(), i))
      && (index >= 0 && i + 81 > |content| ==> Scan(content[s..]) == [])
      && (index >= 0 && i + 81 <= |content| ==>
            Scan(content[s..]) == if Valid(HashAt(content, i)) then [HashAt(content, i)] + Scan(content[i + 81..])
                                  else Scan(content[i + 17..]))
  {
    hide UriPrefix, Valid, At, Index, IndexFrom;
    var tail := content[s..];
    var index := Index(tail, UriPrefix());
    if index >= 0 {
      TailAt(content, s, index);
      var rest := tail[index + 17..];
      assert rest == content[s + index + 17..];
      if |rest| >= 64 { assert rest[..64] == HashAt(content, s + index) && rest[64..] == content[s + index + 81..]; }
    }
  }

  lemma NoneLeft(content: seq<char>, p: nat)
    ensures p + 81 > |content| ==> AcceptedFrom(content, p) == []
  {
  }

  lemma {:induction false} ScanIsAccepted(content: seq<char>, s: nat)
    requires s <= |content| && Clean(content, s)
    ensures Scan(content[s..]) == AcceptedFrom(content, s)
    decreases |content| - s
  {
    hide UriPrefix, At, Quiet, Clean, Accepted, AcceptedFrom, Valid, Scan, Index;
    ScanStep(content, s);
    var index := Index(content[s..], UriPrefix());
    var i := if index < 0 then |content| else s + index;
    QuietBefore(content, s, i);
    SkipTo(content, s, i);
    NoneLeft(content, i);
    if i + 81 <= |content| {
      PrefixStep(content, s, i);
      ScanIsAccepted(content, if Valid(HashAt(content, i)) then i + 81 else i + 17);
    }
  }

  /** The scan returns, in order, every URI with a valid hash, except one that starts on the last byte of the hash of
      one it returned. */
  lemma ScanFindsTheUris(content: seq<char>)
    ensures Scan(content) == AcceptedFrom(content, 0)
  {
    assert content[0..] == content;
    ScanIsAccepted(content, 0);
  }

  lemma {:induction false} AcceptedListed(content: seq<char>, from: nat, h: seq<char>)
    ensures h in AcceptedFrom(content, from) <==>
      exists p: nat :: p >= from && Accepted(content, p) && HashAt(content, p) == h
    decreases |content| - from
  {
    hide UriPrefix;
    if from + 81 <= |content| {
      AcceptedListed(content, from + 1, h);
      if p: nat :| p >= from && Accepted(content, p) && HashAt(content, p) == h { assert p == from || p >= from + 1; }
    }
  }

  /** Every hash found is valid. */
  lemma FoundAreValid(content: seq<char>, h: seq<char>)
    ensures h in Scan(content) ==> Valid(h)
  {
    hide UriPrefix;
    ScanFindsTheUris(content);
    AcceptedListed(content, 0, h);
  }

  /** The text ends with a URI cut one digit short. */
  predicate EndsTruncated(before: seq<char>) {
    |before| >= 80 && At(before, UriPrefix(), |before| - 80) && forall c | c in before[|before| - 63..] :: IsHex(c)
  }

  lemma WrittenOccurs(before: seq<char>, h: seq<char>, after: seq<char>)
    requires Valid(h)
    ensures var content := before + Uri(h) + after; Occurs(content, |before|) && HashAt(content, |before|) == h
  {
    hide UriPrefix;
    var content := before + Uri(h) + after;
    assert content[|before|..|before| + 17] == UriPrefix();
    assert content[|before| + 17..|before| + 81] == h;
  }

  /** How many URIs cut one digit short stand directly one after the other at the end of the text. */
  function CutUris(before: seq<char>): nat {
    if EndsTruncated(before) then 1 + CutUris(before[..|before| - 80]) else 0
  }

  /** Before a URI, a cut one borrows its first byte. */
  lemma CutOccurs(content: seq<char>, n: nat)
    requires Occurs(content, n)
    ensures EndsTruncated(content[..n]) <==> n >= 80 && Occurs(content, n - 80)
  {
    PrefixBytes(content, n);
    assert content[n] == 'a';
    hide UriPrefix;
    if n >= 80 {
      var before := content[..n];
      assert before[n - 80..n - 63] == content[n - 80..n - 63];
      HashBytes(content, n - 80);
      assert HashAt(content, n - 80) == before[n - 63..] + [content[n]];
      assert EndsTruncated(before) ==> Occurs(content, n - 80);
      if Occurs(content, n - 80) {
        forall c | c in before[n - 63..] ensures IsHex(c) { assert c in HashAt(content, n - 80); }
      }
    }
  }

  /** A URI counts exactly when the number of cut ones directly before it is even: each that counts takes the first byte
      of the next. */
  lemma {:induction false} CountsExactly(content: seq<char>, n: nat)
    requires Occurs(content, n)
    ensures Accepted(content, n) <==> CutUris(content[..n]) % 2 == 0
  {
    hide UriPrefix, At, EndsTruncated;
    CutOccurs(content, n);
    if n >= 80 && Occurs(content, n - 80) {
      CountsExactly(content, n - 80);
      assert content[..n][..n - 80] == content[..n - 80];
    }
  }

  /** A URI written into a document is returned for what it is exactly when an even number of URIs cut one digit short
      stand directly before it; otherwise its hash is found only where another URI with that hash counts. */
  lemma WrittenUriIsFound(before: seq<char>, h: seq<char>, after: seq<char>)
    requires Valid(h)
    ensures var content := before + Uri(h) + after;
      && (Accepted(content, |before|) <==> CutUris(before) % 2 == 0)
      && (h in Scan(content) <==>
            CutUris(before) % 2 == 0 ||
            exists p: nat :: p != |before| && Accepted(content, p) && HashAt(content, p) == h)
  {
    hide UriPrefix, Occurs, Accepted;
    var content, n := before + Uri(h) + after, |before|;
    WrittenOccurs(before, h, after);
    assert content[..n] == before;
    CountsExactly(content, n);
    ScanFindsTheUris(content);
    AcceptedListed(content, 0, h);
  }

  /** The exception is real: after a URI cut one digit short the next URI is lost, and a hash nobody wrote is
      found instead. */
  lemma GluedUriIsLost(digits: seq<char>, h: seq<char>)
    requires |digits| == 63 && (forall c | c in digits :: IsHex(c)) && Valid(h)
    ensures Scan(UriPrefix() + digits + Uri(h)) == [digits + "a"]
  {
    var content := UriPrefix() + digits + Uri(h);
    assert content[..17] == UriPrefix() && At(content, UriPrefix(), 0);
    assert content[17..81] == digits + "a";
    assert Valid(HashAt(content, 0));
    assert Accepted(content, 0);
    QuietAfter(content, 0);
    SkipTo(content, 1, 81);
    assert |content| == 161;
    ScanFindsTheUris(content);
  }

  /** strings.TrimSpace over bytes. */
  function TrimSpace(s: seq<char>, space: char -> bool): (r: seq<char>)
    ensures |s| == 0 || (!space(s[0]) && !space(s[|s| - 1])) ==> r == s
  {
    if s == [] then []
    else if space(s[0]) then TrimSpace(s[1..], space)
    else if space(s[|s| - 1]) then TrimSpace(s[..|s| - 1], space)
    else s
  }

  function ParseUri(raw: seq<char>, space: char -> bool): Option<seq<char>> {
    var candidate := TrimSpace(raw, space);
    var hash := if UriPrefix() <= candidate then candidate[PREFIX_LENGTH..] else candidate;
    if Valid(hash) then Some(hash) else None
  }

  /** Parsing gives back the hash a URI was made of, and takes a bare hash as well. */
  lemma ParseRoundTrip(h: seq<char>, space: char -> bool)
    requires Valid(h) && !space('a') && forall c | IsHex(c) :: !space(c)
    ensures ParseUri(Uri(h), space) == Some(h) && ParseUri(h, space) == Some(h)
  {
    assert h[0] in h && h[63] in h;
    var u := Uri(h);
    assert u[0] == 'a' && u[|u| - 1] == h[63] && u[17..] == h;
    assert UriPrefix()[1] == 'm' && !IsHex('m');
    assert h[1] in h;
  }

  predicate Blank(s: seq<char>, space: char -> bool) { forall c | c in s :: space(c) }

  /** Where the text lies between the spaces around it. */
  lemma {:induction false} TrimmedIs(s: seq<char>, space: char -> bool) returns (i: nat, j: nat)
    ensures i <= j <= |s| && TrimSpace(s, space) == s[i..j] && Blank(s[..i], space) && Blank(s[j..], space)
  {
    i, j := 0, |s|;
    if s != [] && space(s[0]) {
      i, j := TrimmedIs(s[1..], space);
      assert s[1..][i..j] == s[i + 1..j + 1] && s[1..][j..] == s[j + 1..];
      BlankMore([s[0]], s[1..][..i], space);
      assert s[..i + 1] == [s[0]] + s[1..][..i];
      i, j := i + 1, j + 1;
    } else if s != [] && space(s[|s| - 1]) {
      var n := |s| - 1;
      i, j := TrimmedIs(s[..n], space);
      assert s[..n][i..j] == s[i..j] && s[..n][..i] == s[..i];
      BlankMore(s[..n][j..], [s[n]], space);
      assert s[j..] == s[..n][j..] + [s[n]];
    }
  }

  lemma BlankMore(a: seq<char>, b: seq<char>, space: char -> bool)
    requires Blank(a, space) && Blank(b, space)
    ensures Blank(a + b, space)
  {
  }

  lemma {:induction false} TrimsAround(a: seq<char>, x: seq<char>, b: seq<char>, space: char -> bool)
    requires Blank(a, space) && Blank(b, space) && x != [] && !space(x[0]) && !space(x[|x| - 1])
    ensures TrimSpace(a + x + b, space) == x
    decreases |a| + |b|
  {
    var s := a + x + b;
    if a != [] {
      assert s[1..] == a[1..] + x + b;
      TrimsAround(a[1..], x, b, space);
    } else if b != [] {
      assert s[..|s| - 1] == a + x + b[..|b| - 1];
      TrimsAround(a, x, b[..|b| - 1], space);
    } else {
      assert s == x;
    }
  }

  /** Spaces around something. */
  predicate Around(raw: seq<char>, x: seq<char>, space: char -> bool) {
    exists i, j | 0 <= i <= j <= |raw| :: raw[i..j] == x && Blank(raw[..i], space) && Blank(raw[j..], space)
  }

  lemma AroundTrims(raw: seq<char>, x: seq<char>, space: char -> bool)
    requires x != [] && !space(x[0]) && !space(x[|x| - 1])
    ensures Around(raw, x, space) <==> TrimSpace(raw, space) == x
  {
    hide TrimSpace, Blank;
    if Around(raw, x, space) {
      var i, j :| 0 <= i <= j <= |raw| && raw[i..j] == x && Blank(raw[..i], space) && Blank(raw[j..], space);
      assert raw == raw[..i] + x + raw[j..];
      TrimsAround(raw[..i], x, raw[j..], space);
    }
    var i, j := TrimmedIs(raw, space);
  }

  /** What is parsed: a hash, or its URI, with spaces around it, and nothing else. A hash is 64 hexadecimal digits, of
      either case. */
  lemma ParseExactly(raw: seq<char>, space: char -> bool, h: seq<char>)
    requires !space('a') && forall c | c in "0123456789abcdefABCDEF" :: !space(c)
    ensures ParseUri(raw, space) == Some(h) <==>
      && |h| == 64 && (forall c | c in h :: c in "0123456789abcdefABCDEF")
      && (Around(raw, h, space) || Around(raw, "amoxtli://images/" + h, space))
  {
    HexDigits();
    ParsesTrimmed(raw, space, h);
    hide ParseUri, TrimSpace, Around, IsHex;
    if Valid(h) {
      assert h[0] in h && h[63] in h;
      AroundTrims(raw, h, space);
      UriEnds(h);
      AroundTrims(raw, Uri(h), space);
    }
  }

  lemma UriEnds(h: seq<char>)
    requires |h| == 64
    ensures Uri(h) == "amoxtli://images/" + h && Uri(h) != [] && Uri(h)[0] == 'a' && Uri(h)[|Uri(h)| - 1] == h[63]
  {
  }

  lemma ParsesTrimmed(raw: seq<char>, space: char -> bool, h: seq<char>)
    ensures ParseUri(raw, space) == Some(h) <==>
      Valid(h) && (TrimSpace(raw, space) == h || TrimSpace(raw, space) == Uri(h))
  {
    var t := TrimSpace(raw, space);
    assert UriPrefix() <= t ==> t == Uri(t[PREFIX_LENGTH..]);
    assert Uri(h)[PREFIX_LENGTH..] == h;
    HashIsNoUri(h);
  }

  lemma HexDigits()
    ensures forall c :: IsHex(c) <==> c in "0123456789abcdefABCDEF"
  {
    forall c ensures IsHex(c) <==> c in "0123456789abcdefABCDEF" {
      var n := c as int;
      assert '0' as int <= n <= '9' as int ==> c == "0123456789"[n - '0' as int];
      assert 'a' as int <= n <= 'f' as int ==> c == "abcdef"[n - 'a' as int];
      assert 'A' as int <= n <= 'F' as int ==> c == "ABCDEF"[n - 'A' as int];
    }
  }

  lemma HashIsNoUri(h: seq<char>)
    ensures Valid(h) ==> !(UriPrefix() <= h)
  {
    assert UriPrefix()[1] == 'm' && !IsHex('m');
    assert |h| > 1 ==> h[1] in h;
  }
}
