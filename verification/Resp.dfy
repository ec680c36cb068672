/** The wire format of the Redis serialization protocol, version 2: commands written as arrays of
    bulk strings, and replies of every kind read from a byte stream. */
module Resp {
  import opened Basics

  const CR: byte := 13
  const LF: byte := 10
  const PLUS: byte := 43
  const MINUS: byte := 45
  const COLON: byte := 58
  const DOLLAR: byte := 36
  const STAR: byte := 42
  const ZERO: byte := 48
  const INT64_LIMIT: int := 0x8000_0000_0000_0000
  const CRLF: Bytes := [CR, LF]

  datatype Reply = Simple(text: Bytes) | Error(text: Bytes) | Integer(n: int) | Bulk(data: Bytes) | Nil | Array(items: seq<Reply>)

  // ---- Numbers --------------------------------------------------------------------------------

  predicate IsDigit(b: byte) {
    ZERO <= b <= ZERO + 9
  }

  function Digits(n: nat): (s: Bytes)
    ensures |s| > 0 && forall i | 0 <= i < |s| :: IsDigit(s[i])
  {
    (if n < 10 then [] else Digits(n / 10)) + [ZERO + (n % 10) as byte]
  }

  function Value(s: Bytes): nat
    requires forall i | 0 <= i < |s| :: IsDigit(s[i])
  {
    if s == [] then 0 else
      assert IsDigit(s[|s| - 1]);
      Value(s[..|s| - 1]) * 10 + (s[|s| - 1] as int - ZERO as int)
  }

  /** A signed decimal number of 64 bits. */
  function ParseInt(s: Bytes): Option<int> {
    var digits := if s != [] && (s[0] == PLUS || s[0] == MINUS) then s[1..] else s;
    if digits == [] || exists i | 0 <= i < |digits| :: !IsDigit(digits[i]) then None
    else
      var n: int := Value(digits);
      if s[0] == MINUS then if n <= INT64_LIMIT then Some(-n) else None
      else if n < INT64_LIMIT then Some(n) else None
  }

  lemma {:induction false} ValueOfDigits(n: nat)
    ensures Value(Digits(n)) == n
  {
    var s := Digits(n);
    if n >= 10 {
      ValueOfDigits(n / 10);
      assert s[..|s| - 1] == Digits(n / 10);
    } else {
      assert s[..|s| - 1] == [];
    }
  }

  function Decimal(n: int): Bytes {
    if n < 0 then [MINUS] + Digits(-n) else Digits(n)
  }

  predicate Int64(n: int) {
    -INT64_LIMIT <= n < INT64_LIMIT
  }

  lemma ParseDecimal(n: int)
    requires Int64(n)
    ensures ParseInt(Decimal(n)) == Some(n) && LF !in Decimal(n)
  {
    hide Digits, Value;
    var size := if n < 0 then -n else n;
    ValueOfDigits(size);
    assert IsDigit(Digits(size)[0]);
    assert n < 0 ==> Decimal(n)[1..] == Digits(size);
    assert LF !in Digits(size) by {
      forall i | 0 <= i < |Digits(size)| ensures Digits(size)[i] != LF {
        assert IsDigit(Digits(size)[i]);
      }
    }
  }

  // ---- Reading --------------------------------------------------------------------------------

  /** The position just after the first line feed. */
  function LineEnd(s: Bytes): (n: Option<nat>)
    ensures n.Some? ==> 0 < n.value <= |s| && s[n.value - 1] == LF && LF !in s[..n.value - 1]
    ensures n.None? <==> LF !in s
  {
    if s == [] then None
    else if s[0] == LF then Some(1)
    else
      assert s == [s[0]] + s[1..];
      var rest := LineEnd(s[1..]);
      if rest.None? then None
      else
        assert s[..rest.value] == [s[0]] + s[1..][..rest.value - 1];
        Some(rest.value + 1)
  }

  function TrimCrlf(s: Bytes): Bytes {
    if |s| >= 2 && s[|s| - 2..] == CRLF then s[..|s| - 2] else s
  }

  /** One reply and what is left of the stream; None if the stream ends early or is malformed. A
      reply takes at least three bytes, so nested replies are bounded by the stream. */
  function Parse(s: Bytes): (r: Option<(Reply, Bytes)>)
    ensures r.Some? ==> |r.value.1| + 3 <= |s|
    decreases |s|, 0
  {
    var end := LineEnd(s);
    if end.None? || end.value < 3 then None
    else ParseBody(s[0], TrimCrlf(s[1..end.value]), s[end.value..])
  }

  /** The reply whose first line has this kind and body. */
  function ParseBody(kind: byte, body: Bytes, rest: Bytes): (r: Option<(Reply, Bytes)>)
    ensures r.Some? ==> |r.value.1| <= |rest|
    decreases |rest|, 2
  {
    if kind == PLUS then Some((Simple(body), rest))
    else if kind == MINUS then Some((Error(body), rest))
    else if kind != COLON && kind != DOLLAR && kind != STAR then None
    else
      var n := ParseInt(body);
      if n.None? then None
      else if kind == COLON then Some((Integer(n.value), rest))
      else if n.value < 0 then Some((Nil, rest))
      else if kind == DOLLAR then
        if |rest| < n.value + 2 then None else Some((Bulk(rest[..n.value]), rest[n.value + 2..]))
      else
        var items := ParseMany(rest, n.value);
        if items.None? then None else Some((Array(items.value.0), items.value.1))
  }

  function ParseMany(s: Bytes, n: nat): (r: Option<(seq<Reply>, Bytes)>)
    ensures r.Some? ==> |r.value.0| == n && |r.value.1| + 3 * n <= |s|
    decreases |s|, 1
  {
    if n == 0 then Some(([], s))
    else
      var first := Parse(s);
      if first.None? then None
      else
        var more := ParseMany(first.value.1, n - 1);
        if more.None? then None else Some(([first.value.0] + more.value.0, more.value.1))
  }

  function Prepend(out: seq<Reply>, more: Option<(seq<Reply>, Bytes)>): Option<(seq<Reply>, Bytes)> {
    if more.None? then None else Some((out + more.value.0, more.value.1))
  }

  lemma ManyNext(s: Bytes, n: nat, first: Reply, rest: Bytes)
    requires Parse(s) == Some((first, rest)) && n > 0
    ensures ParseMany(s, n) == Prepend([first], ParseMany(rest, n - 1))
  {
  }

  lemma PrependTwice(out: seq<Reply>, first: Reply, more: Option<(seq<Reply>, Bytes)>)
    ensures Prepend(out, Prepend([first], more)) == Prepend(out + [first], more)
    ensures Prepend([], more) == more
  {
    if more.Some? {
      assert out + ([first] + more.value.0) == out + [first] + more.value.0;
      assert [] + more.value.0 == more.value.0;
    }
  }

  /** After the replies in out, n more are to be read from s to get what is wanted. */
  ghost predicate Agrees(want: Option<(seq<Reply>, Bytes)>, out: seq<Reply>, s: Bytes, n: nat) {
    want == Prepend(out, ParseMany(s, n))
  }

  lemma ReadStep(want: Option<(seq<Reply>, Bytes)>, out: seq<Reply>, s: Bytes, n: nat, first: Reply, rest: Bytes)
    requires Agrees(want, out, s, n) && n > 0 && Parse(s) == Some((first, rest))
    ensures Agrees(want, out + [first], rest, n - 1)
  {
    ManyNext(s, n, first, rest);
    PrependTwice(out, first, ParseMany(rest, n - 1));
  }

  lemma ReadFails(want: Option<(seq<Reply>, Bytes)>, out: seq<Reply>, s: Bytes, n: nat)
    requires Agrees(want, out, s, n) && n > 0 && Parse(s).None?
    ensures want.None?
  {
  }

  lemma ReadEnds(want: Option<(seq<Reply>, Bytes)>, out: seq<Reply>, s: Bytes)
    requires Agrees(want, out, s, 0)
    ensures want == Some((out, s))
  {
    assert out + [] == out;
  }

  // ---- Writing --------------------------------------------------------------------------------

  function PutLine(kind: byte, body: Bytes): Bytes {
    [kind] + body + CRLF
  }

  /** How a server writes a reply. */
  function PutReply(r: Reply): Bytes
    decreases r, 0
  {
    match r
    case Simple(text) => PutLine(PLUS, text)
    case Error(text) => PutLine(MINUS, text)
    case Integer(n) => PutLine(COLON, Decimal(n))
    case Bulk(data) => PutLine(DOLLAR, Decimal(|data|)) + data + CRLF
    case Nil => PutLine(DOLLAR, Decimal(-1))
    case Array(items) => PutLine(STAR, Decimal(|items|)) + PutReplies(items)
  }

  function PutReplies(items: seq<Reply>): Bytes
    decreases items, 1
  {
    if items == [] then [] else PutReply(items[0]) + PutReplies(items[1..])
  }

  /** Lines hold no line feed, and numbers have 64 bits. */
  predicate Encodable(r: Reply) {
    match r
    case Simple(text) => LF !in text
    case Error(text) => LF !in text
    case Integer(n) => Int64(n)
    case Bulk(data) => |data| < INT64_LIMIT
    case Nil => true
    case Array(items) => |items| < INT64_LIMIT && forall i | 0 <= i < |items| :: Encodable(items[i])
  }

  function Bulks(args: seq<Bytes>): (b: seq<Reply>)
    ensures |b| == |args| && forall i | 0 <= i < |b| :: b[i] == Bulk(args[i])
  {
    seq(|args|, i requires 0 <= i < |args| => Bulk(args[i]))
  }

  /** A command is an array of bulk strings. */
  function PutCommand(args: seq<Bytes>): Bytes {
    PutReply(Array(Bulks(args)))
  }

  /** A line ends where it was written to end. */
  lemma LineParses(kind: byte, body: Bytes, rest: Bytes)
    requires kind != LF && LF !in body
    ensures Parse(PutLine(kind, body) + rest) == ParseBody(kind, body, rest)
  {
    var s, k := PutLine(kind, body) + rest, 3 + |body|;
    assert s[k - 1] == LF && s[k - 2] == CR;
    forall i | 0 <= i < k - 1 ensures s[i] != LF {
      assert i > 0 && i <= |body| ==> s[i] == body[i - 1];
    }
    LineEndIs(s, k);
    assert s[1..k] == body + CRLF;
    assert (body + CRLF)[|body|..] == CRLF && (body + CRLF)[..|body|] == body;
    assert s[k..] == rest;
  }

  lemma {:induction false} LineEndIs(s: Bytes, k: nat)
    requires 0 < k <= |s| && s[k - 1] == LF && forall i | 0 <= i < k - 1 :: s[i] != LF
    ensures LineEnd(s) == Some(k)
  {
    if k > 1 {
      LineEndIs(s[1..], k - 1);
    }
  }

  /** A line of a number reads as that number. */
  lemma NumberParses(kind: byte, n: int, rest: Bytes)
    requires kind != LF && Int64(n)
    ensures Parse(PutLine(kind, Decimal(n)) + rest) == ParseBody(kind, Decimal(n), rest) && ParseInt(Decimal(n)) == Some(n)
  {
    ParseDecimal(n);
    LineParses(kind, Decimal(n), rest);
  }

  /** Any negative length is a nil reply. */
  lemma NegativeLengthIsNil(kind: byte, n: int, rest: Bytes)
    requires (kind == DOLLAR || kind == STAR) && Int64(n) && n < 0
    ensures Parse(PutLine(kind, Decimal(n)) + rest) == Some((Nil, rest))
  {
    hide ParseInt, Decimal, Parse;
    NumberParses(kind, n, rest);
  }

  /** A line of an unknown kind, or whose number is none, is refused. */
  lemma MalformedLine(kind: byte, body: Bytes, rest: Bytes)
    requires kind != LF && LF !in body
    requires kind !in [PLUS, MINUS, COLON, DOLLAR, STAR] || (kind in [COLON, DOLLAR, STAR] && ParseInt(body).None?)
    ensures Parse(PutLine(kind, body) + rest) == None
  {
    LineParses(kind, body, rest);
  }

  lemma BulkBody(body: Bytes, a: Bytes, rest: Bytes)
    requires ParseInt(body) == Some(|a|)
    ensures ParseBody(DOLLAR, body, a + CRLF + rest) == Some((Bulk(a), rest))
  {
    var tail := a + CRLF + rest;
    assert tail[..|a|] == a && tail[|a| + 2..] == rest;
  }

  lemma ArrayBody(body: Bytes, n: nat, tail: Bytes, items: seq<Reply>, rest: Bytes)
    requires ParseInt(body) == Some(n) && ParseMany(tail, n) == Some((items, rest))
    ensures ParseBody(STAR, body, tail) == Some((Array(items), rest))
  {
  }

  lemma LineRoundTrip(r: Reply, rest: Bytes)
    requires Encodable(r) && !r.Array?
    ensures Parse(PutReply(r) + rest) == Some((r, rest))
  {
    hide ParseInt, Decimal;
    match r
    case Simple(text) => LineParses(PLUS, text, rest);
    case Error(text) => LineParses(MINUS, text, rest);
    case Integer(n) => NumberParses(COLON, n, rest);
    case Nil => NegativeLengthIsNil(DOLLAR, -1, rest);
    case Bulk(data) =>
      var tail := data + CRLF + rest;
      assert PutReply(r) + rest == PutLine(DOLLAR, Decimal(|data|)) + tail;
      NumberParses(DOLLAR, |data|, tail);
      BulkBody(Decimal(|data|), data, rest);
  }

  /** A reply of any kind and depth, whatever follows it, reads back as itself and leaves exactly
      what follows. */
  lemma {:induction false} ReplyRoundTrip(r: Reply, rest: Bytes)
    requires Encodable(r)
    ensures Parse(PutReply(r) + rest) == Some((r, rest))
    decreases r, 0
  {
    if r.Array? {
      var tail := PutReplies(r.items) + rest;
      assert PutReply(r) + rest == PutLine(STAR, Decimal(|r.items|)) + tail;
      NumberParses(STAR, |r.items|, tail);
      RepliesRoundTrip(r.items, rest);
      ArrayBody(Decimal(|r.items|), |r.items|, tail, r.items, rest);
    } else {
      LineRoundTrip(r, rest);
    }
  }

  lemma {:induction false} RepliesRoundTrip(items: seq<Reply>, rest: Bytes)
    requires forall i | 0 <= i < |items| :: Encodable(items[i])
    ensures ParseMany(PutReplies(items) + rest, |items|) == Some((items, rest))
    decreases items, 1
  {
    hide Parse, PutReply, Encodable;
    if items == [] {
      assert PutReplies(items) + rest == rest;
    } else {
      var tail := PutReplies(items[1..]) + rest;
      assert PutReplies(items) + rest == PutReply(items[0]) + tail;
      ReplyRoundTrip(items[0], tail);
      hide ParseMany;
      ManyNext(PutReply(items[0]) + tail, |items|, items[0], tail);
      RepliesRoundTrip(items[1..], rest);
      assert [items[0]] + items[1..] == items;
    }
  }

  /** A command, whatever bytes its arguments hold and whatever follows it, reads back as exactly
      those arguments and leaves exactly what follows. */
  lemma CommandRoundTrip(args: seq<Bytes>, rest: Bytes)
    requires |args| < INT64_LIMIT && forall a | a in args :: |a| < INT64_LIMIT
    ensures Parse(PutCommand(args) + rest) == Some((Array(Bulks(args)), rest))
  {
    ReplyRoundTrip(Array(Bulks(args)), rest);
  }

  /** Different commands never have the same bytes. */
  lemma CommandsAreUnambiguous(args: seq<Bytes>, other: seq<Bytes>)
    requires |args| < INT64_LIMIT && forall a | a in args :: |a| < INT64_LIMIT
    requires |other| < INT64_LIMIT && forall a | a in other :: |a| < INT64_LIMIT
    requires PutCommand(args) == PutCommand(other)
    ensures args == other
  {
    CommandRoundTrip(args, []);
    CommandRoundTrip(other, []);
    assert Bulks(args) == Bulks(other);
    forall i | 0 <= i < |args| ensures args[i] == other[i] {
      assert Bulks(args)[i] == Bulks(other)[i];
    }
  }

  method EncodeCommand(args: seq<Bytes>) returns (b: Bytes)
    ensures b == PutCommand(args)
  {
    ghost var items := Bulks(args);
    b := [STAR] + Digits(|args|) + CRLF;
    for i := 0 to |args|
      invariant b + PutReplies(items[i..]) == PutCommand(args)
    {
      assert items[i..][0] == Bulk(args[i]) && items[i..][1..] == items[i + 1..];
      var bulk := [DOLLAR] + Digits(|args[i]|) + CRLF + args[i] + CRLF;
      assert bulk == PutReply(items[i]);
      assert b + (bulk + PutReplies(items[i + 1..])) == b + bulk + PutReplies(items[i + 1..]);
      b := b + bulk;
    }
    assert PutReplies(items[|args|..]) == [];
  }

  // ---- The buffered reader ----------------------------------------------------------------------

  class Reader {
    /** What is left of the stream. */
    var data: Bytes

    constructor (stream: Bytes)
      ensures data == stream
    {
      data := stream;
    }

    /** Reads up to and including the next line feed. */
    method ReadLine() returns (line: Option<Bytes>)
      modifies this
      ensures line.Some? <==> LineEnd(old(data)).Some?
      ensures line.Some? ==> var k := LineEnd(old(data)).value; line.value == old(data)[..k] && data == old(data)[k..]
    {
      for i := 0 to |data|
        invariant data == old(data) && forall j | 0 <= j < i :: data[j] != LF
      {
        if data[i] == LF {
          LineEndIs(data, i + 1);
          line := Some(data[..i + 1]);
          data := data[i + 1..];
          return;
        }
      }
      return None;
    }

    /** Fills a buffer of n bytes from reads that each return what happens to be there. */
    method ReadFull(n: nat) returns (buf: Option<Bytes>)
      modifies this
      ensures buf.Some? <==> n <= |old(data)|
      ensures buf.Some? ==> buf.value == old(data)[..n] && data == old(data)[n..]
    {
      var got: Bytes := [];
      while |got| < n
        invariant |got| <= n && got + data == old(data)
        decreases n - |got|
      {
        if data == [] {
          return None;
        }
        var m: int := *;
        if m <= 0 || m > n - |got| || m > |data| {
          m := 1;
        }
        assert got + data == got + data[..m] + data[m..];
        got, data := got + data[..m], data[m..];
      }
      assert old(data)[..n] == got && old(data)[n..] == data;
      buf := Some(got);
    }

    /** Reads one reply; None means the connection is dropped. */
    method ReadReply() returns (r: Option<Reply>)
      modifies this
      ensures r.Some? <==> Parse(old(data)).Some?
      ensures r.Some? ==> Parse(old(data)).value == (r.value, data)
      decreases |data|, 0
    {
      var line := ReadLine();
      if line.None? || |line.value| < 3 {
        return None;
      }
      assert line.value[1..] == old(data)[1..|line.value|];
      r := ReadBody(line.value[0], TrimCrlf(line.value[1..]));
    }

    method ReadBody(kind: byte, body: Bytes) returns (r: Option<Reply>)
      modifies this
      ensures r.Some? <==> ParseBody(kind, body, old(data)).Some?
      ensures r.Some? ==> ParseBody(kind, body, old(data)).value == (r.value, data)
      decreases |data|, 3
    {
      if kind == PLUS {
        return Some(Simple(body));
      }
      if kind == MINUS {
        return Some(Error(body));
      }
      if kind != COLON && kind != DOLLAR && kind != STAR {
        return None;
      }
      var n := ParseInt(body);
      if n.None? {
        return None;
      }
      if kind == COLON {
        return Some(Integer(n.value));
      }
      if n.value < 0 {
        return Some(Nil);
      }
      if kind == DOLLAR {
        assert |data| >= n.value + 2 ==> data[..n.value + 2][..n.value] == data[..n.value];
        var buf := ReadFull(n.value + 2);
        return if buf.None? then None else Some(Bulk(buf.value[..n.value]));
      }
      ghost var want := ParseMany(data, n.value);
      PrependTwice([], Nil, want);
      var items := ReadMany(n.value, want);
      r := if items.None? then None else Some(Array(items.value));
    }

    /** Reads the next of n replies. */
    method ReadNext(n: nat, ghost want: Option<(seq<Reply>, Bytes)>, ghost out: seq<Reply>) returns (r: Option<Reply>)
      requires n > 0 && Agrees(want, out, data, n)
      modifies this
      ensures r.None? ==> want.None?
      ensures r.Some? ==> Agrees(want, out + [r.value], data, n - 1) && |data| < |old(data)|
      decreases |data|, 1
    {
      r := ReadReply();
      if r.None? {
        ReadFails(want, out, old(data), n);
      } else {
        ReadStep(want, out, old(data), n, r.value, data);
      }
    }

    /** Reads n replies one after the other. */
    method ReadMany(n: nat, ghost want: Option<(seq<Reply>, Bytes)>) returns (r: Option<seq<Reply>>)
      requires Agrees(want, [], data, n)
      modifies this
      ensures want == if r.Some? then Some((r.value, data)) else None
      decreases |data|, 2
    {
      var out: seq<Reply>, left := [], n;
      while left > 0
        invariant |data| <= |old(data)| && Agrees(want, out, data, left)
      {
        var next := ReadNext(left, want, out);
        if next.None? {
          return None;
        }
        out, left := out + [next.value], left - 1;
      }
      ReadEnds(want, out, data);
      r := Some(out);
    }
  }
}
