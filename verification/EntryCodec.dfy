/** The byte format of cached responses, versions 1 and 2. */
module EntryCodec {
  import opened Basics

  const MAX_ENTRY_BYTES := 2_097_152
  const WORD := 0x1_0000_0000

  datatype Entry = Entry(status: int, contentType: Bytes, headers: map<Bytes, Bytes>, body: Bytes)

  datatype Error = BodyTooLarge | EmptyEntry | BadVersion | Truncated

  function Ascii(s: string): Bytes {
    seq(|s|, i requires 0 <= i < |s| => (s[i] as int % 256) as byte)
  }

  const SAFE_HEADERS: set<Bytes> := {
    Ascii("Etag"), Ascii("Last-Modified"), Ascii("Content-Language"), Ascii("Vary"),
    Ascii("X-Plex-Container-Start"), Ascii("X-Plex-Container-Size"), Ascii("X-Plex-Container-Total-Size") }

  // ---- Words ----------------------------------------------------------------------------------

  /** Four bytes, big-endian, of the value modulo 2^32. */
  function PutWord(n: int): (b: Bytes)
    ensures |b| == 4
  {
    var w := n % WORD;
    var high := w / 256 / 256;
    [(high / 256) as byte, (high % 256) as byte, (w / 256 % 256) as byte, (w % 256) as byte]
  }

  function GetWord(b: Bytes): (n: nat)
    requires |b| == 4
    ensures n < WORD
  {
    ((b[0] as int * 256 + b[1] as int) * 256 + b[2] as int) * 256 + b[3] as int
  }

  lemma Halves(n: nat)
    ensures n == n / 256 * 256 + n % 256
  {
  }

  lemma WordRoundTrip(n: int)
    ensures GetWord(PutWord(n)) == n % WORD
  {
    var w := n % WORD;
    Halves(w);
    Halves(w / 256);
    Halves(w / 256 / 256);
  }

  lemma WordUnique(b: Bytes)
    requires |b| == 4
    ensures PutWord(GetWord(b)) == b
  {
    var high := b[0] as int * 256 + b[1] as int;
    var n := GetWord(b);
    assert n % WORD == n;
    assert n / 256 == high * 256 + b[2] as int && n % 256 == b[3] as int;
    assert n / 256 / 256 == high && n / 256 % 256 == b[2] as int;
    assert high / 256 == b[0] as int && high % 256 == b[1] as int;
  }

  // ---- Headers --------------------------------------------------------------------------------

  const NUL: byte := 0

  /** Key and value, each followed by a NUL, in the given order of the keys. */
  function PutHeaders(keys: seq<Bytes>, headers: map<Bytes, Bytes>): Bytes
    requires forall k | k in keys :: k in headers
  {
    if keys == [] then [] else keys[0] + [NUL] + headers[keys[0]] + [NUL] + PutHeaders(keys[1..], headers)
  }

  /** The pieces between NULs. */
  function Split(s: Bytes): (parts: seq<Bytes>)
    ensures |parts| > 0
  {
    if NUL !in s then [s]
    else
      var i := FirstNul(s);
      [s[..i]] + Split(s[i + 1..])
  }

  function FirstNul(s: Bytes): (i: nat)
    requires NUL in s
    ensures i < |s| && s[i] == NUL && NUL !in s[..i]
  {
    if s[0] == NUL then 0 else
      assert s == [s[0]] + s[1..];
      var i := FirstNul(s[1..]);
      assert s[..i + 1] == [s[0]] + s[1..][..i];
      i + 1
  }

  /** Pairs of pieces, keeping those with an allowlisted key; a later pair wins. */
  function Pairs(parts: seq<Bytes>): map<Bytes, Bytes> {
    if |parts| < 2 then map[]
    else Kept(parts[0], parts[1]) + Pairs(parts[2..])
  }

  function Restrict(headers: map<Bytes, Bytes>): map<Bytes, Bytes> {
    map k | k in headers && k in SAFE_HEADERS :: headers[k]
  }

  lemma FirstNulIs(s: Bytes, i: nat)
    requires i < |s| && s[i] == NUL && NUL !in s[..i]
    ensures FirstNul(s) == i
  {
    var j := FirstNul(s);
    assert s[j] == NUL && NUL !in s[..j];
  }

  lemma SplitFirst(k: Bytes, rest: Bytes)
    requires NUL !in k
    ensures Split(k + [NUL] + rest) == [k] + Split(rest)
  {
    var s := k + [NUL] + rest;
    assert s[|k|] == NUL && s[..|k|] == k && s[|k| + 1..] == rest;
    FirstNulIs(s, |k|);
  }

  lemma SplitPair(k: Bytes, v: Bytes, rest: Bytes)
    requires NUL !in k && NUL !in v
    ensures Split(k + [NUL] + v + [NUL] + rest) == [k, v] + Split(rest)
  {
    hide Split;
    Regroup(k, v, rest);
    SplitFirst(k, v + [NUL] + rest);
    SplitFirst(v, rest);
    PairOf(k, v, Split(rest));
  }

  lemma Regroup(k: Bytes, v: Bytes, rest: Bytes)
    ensures k + [NUL] + v + [NUL] + rest == k + [NUL] + (v + [NUL] + rest)
  {
  }

  lemma PairOf<T>(a: T, b: T, rest: seq<T>)
    ensures [a] + ([b] + rest) == [a, b] + rest
  {
  }

  ghost predicate NulFree(headers: map<Bytes, Bytes>) {
    forall k | k in headers :: NUL !in k && NUL !in headers[k]
  }

  ghost predicate Enumerates(keys: seq<Bytes>, headers: map<Bytes, Bytes>) {
    Distinct(keys) && (forall k | k in keys :: k in headers) && (forall k | k in headers :: k in keys)
  }

  function RestrictTo(keys: seq<Bytes>, headers: map<Bytes, Bytes>): map<Bytes, Bytes> {
    map k | k in headers && k in keys && k in SAFE_HEADERS :: headers[k]
  }

  function Kept(k: Bytes, v: Bytes): map<Bytes, Bytes> {
    if k in SAFE_HEADERS then map[k := v] else map[]
  }

  lemma RestrictNext(keys: seq<Bytes>, headers: map<Bytes, Bytes>)
    requires keys != [] && Distinct(keys) && keys[0] in headers
    ensures RestrictTo(keys, headers) == Kept(keys[0], headers[keys[0]]) + RestrictTo(keys[1..], headers)
  {
    assert keys == [keys[0]] + keys[1..];
    forall i | 0 <= i < |keys[1..]| ensures keys[1..][i] != keys[0] {
      assert keys[1..][i] == keys[i + 1];
    }
  }

  lemma {:induction false} HeadersDecode(keys: seq<Bytes>, headers: map<Bytes, Bytes>)
    requires NulFree(headers) && Distinct(keys) && forall k | k in keys :: k in headers
    ensures Pairs(Split(PutHeaders(keys, headers))) == RestrictTo(keys, headers)
  {
    if keys == [] {
      assert Split([]) == [[]];
    } else {
      var k, v, rest := keys[0], headers[keys[0]], PutHeaders(keys[1..], headers);
      HeadersDecode(keys[1..], headers);
      SplitPair(k, v, rest);
      RestrictNext(keys, headers);
      var parts := [k, v] + Split(rest);
      assert parts[2..] == Split(rest);
    }
  }

  lemma {:induction false} SplitIsNulFree(s: Bytes, i: nat)
    requires i < |Split(s)|
    ensures NUL !in Split(s)[i]
    decreases |s|
  {
    if NUL in s && i > 0 {
      SplitIsNulFree(s[FirstNul(s) + 1..], i - 1);
    }
  }

  lemma {:induction false} PairsFromParts(parts: seq<Bytes>, k: Bytes)
    requires k in Pairs(parts)
    ensures Pairs(parts)[k] in parts
    decreases |parts|
  {
    if k in Pairs(parts[2..]) {
      PairsFromParts(parts[2..], k);
    }
  }

  // ---- Entries --------------------------------------------------------------------------------

  /** The version 2 layout. */
  function Layout(status: int, contentType: Bytes, headers: Bytes, body: Bytes): Bytes {
    [2] + PutWord(status) + PutWord(|contentType|) + contentType + PutWord(|headers|) + headers + body
  }

  function LegacyLayout(status: int, contentType: Bytes, body: Bytes): Bytes {
    [1] + PutWord(status) + PutWord(|contentType|) + contentType + body
  }

  function Decode(b: Bytes): Result<Entry, Error> {
    if |b| < 1 then Err(EmptyEntry)
    else if b[0] == 1 then DecodeLegacy(b)
    else if b[0] == 2 then DecodeCurrent(b)
    else Err(BadVersion)
  }

  function DecodeLegacy(b: Bytes): Result<Entry, Error> {
    if |b| < 9 then Err(Truncated)
    else
      var clen := GetWord(b[5..9]);
      if |b| < 9 + clen then Err(Truncated)
      else Ok(Entry(GetWord(b[1..5]), b[9..9 + clen], map[], b[9 + clen..]))
  }

  function DecodeCurrent(b: Bytes): Result<Entry, Error> {
    if |b| < 13 then Err(Truncated)
    else
      var clen := GetWord(b[5..9]);
      if |b| < 13 + clen then Err(Truncated)
      else DecodeTail(GetWord(b[1..5]), b[9..9 + clen], b[9 + clen..])
  }

  /** The header block and the body. */
  function DecodeTail(status: nat, contentType: Bytes, rest: Bytes): Result<Entry, Error>
    requires |rest| >= 4
  {
    var hlen := GetWord(rest[..4]);
    if |rest| < 4 + hlen then Err(Truncated)
    else Ok(Entry(status, contentType, Pairs(Split(rest[4..4 + hlen])), rest[4 + hlen..]))
  }

  lemma Slices(st: Bytes, cl: Bytes, contentType: Bytes, hl: Bytes, headers: Bytes, body: Bytes)
    requires |st| == |cl| == |hl| == 4
    ensures
      var b := [2] + st + cl + contentType + hl + headers + body;
      var c := |contentType|;
      && |b| == 13 + c + |headers| + |body| && b[0] == 2 && b[1..5] == st && b[5..9] == cl
      && b[9..9 + c] == contentType && b[9 + c..] == hl + headers + body
  {
    var b := [2] + st + cl + contentType + hl + headers + body;
    assert b == [2] + (st + (cl + (contentType + (hl + headers + body))));
    assert b[1..] == st + (cl + (contentType + (hl + headers + body)));
    assert b[5..] == cl + (contentType + (hl + headers + body));
    assert b[9..] == contentType + (hl + headers + body);
    assert b[1..5] == b[1..][..4] && b[5..9] == b[5..][..4];
  }

  lemma LayoutParts(status: int, contentType: Bytes, headers: Bytes, body: Bytes)
    requires |contentType| < WORD && |headers| < WORD
    ensures
      var b := Layout(status, contentType, headers, body);
      var c := |contentType|;
      && |b| == 13 + c + |headers| + |body| && b[0] == 2
      && b[1..5] == PutWord(status) && b[5..9] == PutWord(c) && b[9..9 + c] == contentType
      && b[9 + c..][..4] == PutWord(|headers|) && b[9 + c..][4..4 + |headers|] == headers && b[9 + c..][4 + |headers|..] == body
  {
    Slices(PutWord(status), PutWord(|contentType|), contentType, PutWord(|headers|), headers, body);
  }

  lemma TailDecodes(status: nat, contentType: Bytes, rest: Bytes, headers: Bytes, body: Bytes)
    requires |rest| == 4 + |headers| + |body| && GetWord(rest[..4]) == |headers|
    requires rest[4..4 + |headers|] == headers && rest[4 + |headers|..] == body
    ensures DecodeTail(status, contentType, rest) == Ok(Entry(status, contentType, Pairs(Split(headers)), body))
  {
    var n := GetWord(rest[..4]);
    assert n == |headers| && rest[4..4 + n] == headers && rest[4 + n..] == body;
  }

  lemma PartsDecode(b: Bytes, status: nat, contentType: Bytes, rest: Bytes)
    requires |b| == 9 + |contentType| + |rest| && |rest| >= 4 && b[0] == 2
    requires GetWord(b[1..5]) == status && GetWord(b[5..9]) == |contentType|
    requires b[9..9 + |contentType|] == contentType && b[9 + |contentType|..] == rest
    ensures Decode(b) == DecodeTail(status, contentType, rest)
  {
  }

  lemma WordsOfLayout(status: int, contentType: Bytes, headers: Bytes)
    requires |contentType| < WORD && |headers| < WORD
    ensures GetWord(PutWord(status)) == status % WORD
    ensures GetWord(PutWord(|contentType|)) == |contentType| && GetWord(PutWord(|headers|)) == |headers|
  {
    WordRoundTrip(status);
    WordRoundTrip(|contentType|);
    WordRoundTrip(|headers|);
  }

  /** Every laid out entry decodes to its fields, with the headers split into pairs. */
  lemma LayoutDecodes(status: int, contentType: Bytes, headers: Bytes, body: Bytes)
    requires |contentType| < WORD && |headers| < WORD
    ensures Decode(Layout(status, contentType, headers, body)) == Ok(Entry(status % WORD, contentType, Pairs(Split(headers)), body))
  {
    LayoutParts(status, contentType, headers, body);
    WordsOfLayout(status, contentType, headers);
    var b := Layout(status, contentType, headers, body);
    var rest := b[9 + |contentType|..];
    PartsDecode(b, status % WORD, contentType, rest);
    TailDecodes(status % WORD, contentType, rest, headers, body);
  }

  lemma LegacyDecodes(status: int, contentType: Bytes, body: Bytes)
    requires |contentType| < WORD
    ensures Decode(LegacyLayout(status, contentType, body)) == Ok(Entry(status % WORD, contentType, map[], body))
  {
    var b, c := LegacyLayout(status, contentType, body), |contentType|;
    WordRoundTrip(status);
    WordRoundTrip(c);
    assert b[1..5] == PutWord(status) && b[5..9] == PutWord(c) && b[9..9 + c] == contentType && b[9 + c..] == body;
  }

  lemma TailWasLaidOut(status: nat, contentType: Bytes, rest: Bytes) returns (headers: Bytes)
    requires |rest| >= 4 && DecodeTail(status, contentType, rest).Ok?
    ensures
      var e := DecodeTail(status, contentType, rest).value;
      rest == PutWord(|headers|) + headers + e.body && e.headers == Pairs(Split(headers)) && e.status == status && e.contentType == contentType
  {
    var n := GetWord(rest[..4]);
    WordUnique(rest[..4]);
    headers := rest[4..4 + n];
    assert rest == rest[..4] + headers + rest[4 + n..];
  }

  lemma PrefixWasLaidOut(b: Bytes, version: byte, n: nat)
    requires |b| >= 9 + n && b[0] == version && GetWord(b[5..9]) == n
    ensures b == [version] + PutWord(GetWord(b[1..5])) + PutWord(|b[9..9 + n]|) + b[9..9 + n] + b[9 + n..]
  {
    WordUnique(b[1..5]);
    WordUnique(b[5..9]);
    assert b == [version] + b[1..5] + b[5..9] + b[9..9 + n] + b[9 + n..];
  }

  lemma LegacyWasLaidOut(b: Bytes)
    requires |b| > 0 && b[0] == 1 && DecodeLegacy(b).Ok?
    ensures var e := DecodeLegacy(b).value; b == LegacyLayout(e.status, e.contentType, e.body) && e.headers == map[]
  {
    PrefixWasLaidOut(b, 1, GetWord(b[5..9]));
  }

  lemma CurrentWasLaidOut(b: Bytes) returns (headers: Bytes)
    requires |b| > 0 && b[0] == 2 && DecodeCurrent(b).Ok?
    ensures var e := DecodeCurrent(b).value; b == Layout(e.status, e.contentType, headers, e.body) && e.headers == Pairs(Split(headers))
  {
    var n := GetWord(b[5..9]);
    PrefixWasLaidOut(b, 2, n);
    headers := TailWasLaidOut(GetWord(b[1..5]), b[9..9 + n], b[9 + n..]);
    var e := DecodeCurrent(b).value;
    var front := [2] + PutWord(e.status) + PutWord(|e.contentType|) + e.contentType;
    assert front + (PutWord(|headers|) + headers + e.body) == front + PutWord(|headers|) + headers + e.body;
  }

  /** Nothing but laid out entries decodes. */
  lemma DecodedWasLaidOut(b: Bytes)
    requires Decode(b).Ok?
    ensures
      var e := Decode(b).value;
      if b[0] == 1 then b == LegacyLayout(e.status, e.contentType, e.body) && e.headers == map[]
      else exists headers :: b == Layout(e.status, e.contentType, headers, e.body) && e.headers == Pairs(Split(headers))
  {
    if b[0] == 1 {
      LegacyWasLaidOut(b);
    } else {
      var headers := CurrentWasLaidOut(b);
    }
  }

  /** What decoding an encoded entry gives, for every order of the header keys. */
  lemma RoundTrip(e: Entry, keys: seq<Bytes>)
    requires Enumerates(keys, e.headers) && NulFree(e.headers)
    requires |e.contentType| < WORD && |PutHeaders(keys, e.headers)| < WORD
    ensures Decode(Layout(e.status, e.contentType, PutHeaders(keys, e.headers), e.body)) ==
            Ok(e.(status := e.status % WORD, headers := Restrict(e.headers)))
  {
    LayoutDecodes(e.status, e.contentType, PutHeaders(keys, e.headers), e.body);
    HeadersDecode(keys, e.headers);
    assert RestrictTo(keys, e.headers) == Restrict(e.headers);
  }

  lemma SafeKeysAreNulFree(k: Bytes)
    requires k in SAFE_HEADERS
    ensures NUL !in k
  {
    AsciiIsNulFree("Etag");
    AsciiIsNulFree("Last-Modified");
    AsciiIsNulFree("Content-Language");
    AsciiIsNulFree("Vary");
    AsciiIsNulFree("X-Plex-Container-Start");
    AsciiIsNulFree("X-Plex-Container-Size");
    AsciiIsNulFree("X-Plex-Container-Total-Size");
  }

  lemma AsciiIsNulFree(s: string)
    requires forall c | c in s :: 0 < c as int < 256
    ensures NUL !in Ascii(s)
  {
    forall i | 0 <= i < |s| ensures Ascii(s)[i] != NUL {
      assert s[i] in s;
    }
  }

  lemma NulIsLost(raw: Bytes, headers: map<Bytes, Bytes>, k: Bytes)
    requires k in headers && NUL in headers[k]
    ensures Pairs(Split(raw)) != headers
  {
    if k in Pairs(Split(raw)) {
      PairsFromParts(Split(raw), k);
      var i :| 0 <= i < |Split(raw)| && Split(raw)[i] == Pairs(Split(raw))[k];
      SplitIsNulFree(raw, i);
    }
  }

  /** An entry with allowlisted headers and a status and lengths of 32 bits comes back unchanged
      exactly if no header value contains a NUL. */
  lemma RoundTripExactly(e: Entry, keys: seq<Bytes>)
    requires Enumerates(keys, e.headers) && (forall k | k in e.headers :: k in SAFE_HEADERS) && 0 <= e.status < WORD
    requires |e.contentType| < WORD && |PutHeaders(keys, e.headers)| < WORD
    ensures Decode(Layout(e.status, e.contentType, PutHeaders(keys, e.headers), e.body)) == Ok(e) <==> forall k | k in e.headers :: NUL !in e.headers[k]
  {
    var h := PutHeaders(keys, e.headers);
    LayoutDecodes(e.status, e.contentType, h, e.body);
    if forall k | k in e.headers :: NUL !in e.headers[k] {
      forall k | k in e.headers ensures NUL !in k {
        SafeKeysAreNulFree(k);
      }
      RoundTrip(e, keys);
      assert Restrict(e.headers) == e.headers;
    } else {
      var k :| k in e.headers && NUL in e.headers[k];
      NulIsLost(h, e.headers, k);
    }
  }

  // ---- Reading and writing --------------------------------------------------------------------

  method MarshalHeaders(keys: seq<Bytes>, headers: map<Bytes, Bytes>) returns (raw: Bytes)
    requires forall k | k in keys :: k in headers
    ensures raw == PutHeaders(keys, headers)
  {
    raw := [];
    for i := 0 to |keys|
      invariant raw + PutHeaders(keys[i..], headers) == PutHeaders(keys, headers)
    {
      assert keys[i..][1..] == keys[i + 1..];
      var pair := keys[i] + [NUL] + headers[keys[i]] + [NUL];
      assert raw + (pair + PutHeaders(keys[i + 1..], headers)) == raw + pair + PutHeaders(keys[i + 1..], headers);
      raw := raw + pair;
    }
    assert PutHeaders(keys[|keys|..], headers) == [];
  }

  /** Encodes an entry, writing the headers in the given order of their keys. */
  method Marshal(e: Entry, keys: seq<Bytes>) returns (r: Result<Bytes, Error>)
    requires Enumerates(keys, e.headers)
    ensures r == if |e.body| > MAX_ENTRY_BYTES then Err(BodyTooLarge) else Ok(Layout(e.status, e.contentType, PutHeaders(keys, e.headers), e.body))
  {
    if |e.body| > MAX_ENTRY_BYTES {
      return Err(BodyTooLarge);
    }
    var raw := MarshalHeaders(keys, e.headers);
    r := Ok([2] + PutWord(e.status) + PutWord(|e.contentType|) + e.contentType + PutWord(|raw|) + raw + e.body);
  }

  method CollectHeaders(parts: seq<Bytes>) returns (headers: map<Bytes, Bytes>)
    ensures headers == Pairs(parts)
  {
    hide Pairs, Kept;
    headers := map[];
    var i := 0;
    assert parts[0..] == parts;
    while i + 1 < |parts|
      invariant 0 <= i <= |parts| && headers + Pairs(parts[i..]) == Pairs(parts)
    {
      CollectStep(parts, i, headers);
      headers := headers + Kept(parts[i], parts[i + 1]);
      i := i + 2;
    }
    NoPairs(parts[i..]);
  }

  lemma CollectStep(parts: seq<Bytes>, i: nat, headers: map<Bytes, Bytes>)
    requires i + 1 < |parts|
    ensures headers + Pairs(parts[i..]) == headers + Kept(parts[i], parts[i + 1]) + Pairs(parts[i + 2..])
  {
    hide Kept;
    var tail := parts[i..];
    assert tail[0] == parts[i] && tail[1] == parts[i + 1] && tail[2..] == parts[i + 2..];
    MergeThen(headers, Kept(parts[i], parts[i + 1]), Pairs(parts[i + 2..]));
  }

  lemma MergeThen<K, V>(a: map<K, V>, b: map<K, V>, c: map<K, V>)
    ensures a + b + c == a + (b + c)
  {
  }

  lemma NoPairs(parts: seq<Bytes>)
    requires |parts| < 2
    ensures Pairs(parts) == map[]
  {
  }

  /** Decodes what Marshal and its predecessor wrote; anything else is an error. */
  method Unmarshal(b: Bytes) returns (r: Result<Entry, Error>)
    ensures r == Decode(b)
  {
    if |b| < 1 {
      return Err(EmptyEntry);
    }
    if b[0] != 1 && b[0] != 2 {
      return Err(BadVersion);
    }
    if |b| < (if b[0] == 1 then 9 else 13) {
      return Err(Truncated);
    }
    var clen := GetWord(b[5..9]);
    if |b| < (if b[0] == 1 then 9 else 13) + clen {
      return Err(Truncated);
    }
    var status, contentType, rest := GetWord(b[1..5]), b[9..9 + clen], b[9 + clen..];
    if b[0] == 1 {
      return Ok(Entry(status, contentType, map[], rest));
    }
    var hlen := GetWord(rest[..4]);
    if |rest| < 4 + hlen {
      return Err(Truncated);
    }
    var headers := CollectHeaders(Split(rest[4..4 + hlen]));
    r := Ok(Entry(status, contentType, headers, rest[4 + hlen..]));
  }
}
