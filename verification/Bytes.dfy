/** Bytes and the byte streams the readers of the model pull from. */
module Bytes {

  type byte = x: int | 0 <= x < 256

  const CR: byte := 13
  const LF: byte := 10

  predicate AllAscii(text: string) {
    forall i | 0 <= i < |text| :: (text[i] as int) < 128
  }

  /** The bytes of an ASCII text. */
  function Ascii(text: string): (s: seq<byte>)
    requires AllAscii(text)
    ensures |s| == |text| && forall i | 0 <= i < |s| :: s[i] == text[i] as int
  {
    seq(|text|, i requires 0 <= i < |text| => text[i] as int)
  }

  /** Joins a sequence of chunks. */
  function Concat<T>(chunks: seq<seq<T>>): seq<T> {
    if chunks == [] then [] else chunks[0] + Concat(chunks[1..])
  }

  lemma {:induction false} ConcatSnoc<T>(chunks: seq<seq<T>>, last: seq<T>)
    ensures Concat(chunks + [last]) == Concat(chunks) + last
  {
    if chunks == [] {
      assert chunks + [last] == [last];
      assert Concat([]) + last == last;
      assert [last][1..] == [] && last + [] == last;
    } else {
      ConcatSnoc(chunks[1..], last);
      assert (chunks + [last])[1..] == chunks[1..] + [last];
    }
  }

  /**
   The reading half of a connection whose peer has sent `pending` and then closed. A read returns
   any non-empty prefix that fits, so whatever holds of a reader holds under every segmentation.
   */
  class ByteStream {
    var pending: seq<byte>

    constructor (bytes: seq<byte>)
      ensures pending == bytes
    {
      pending := bytes;
    }

    /** An empty result is end of file. */
    method Read(max: nat) returns (chunk: seq<byte>)
      requires 0 < max
      modifies this
      ensures |chunk| <= max && old(pending) == chunk + pending
      ensures chunk == [] <==> old(pending) == []
    {
      if pending == [] {
        return [];
      }
      var n: nat :| 1 <= n <= |pending| && n <= max;
      chunk, pending := pending[..n], pending[n..];
    }

    /** `None` is an unexpected end of file; the bytes read so far are gone. */
    method ReadExact(n: nat) returns (ok: bool, data: seq<byte>)
      modifies this
      ensures ok == (n <= |old(pending)|)
      ensures ok ==> data == old(pending)[..n] && pending == old(pending)[n..]
      ensures !ok ==> pending == []
    {
      data := [];
      while |data| < n
        invariant |data| <= n && old(pending) == data + pending
      {
        var chunk := Read(n - |data|);
        if chunk == [] {
          return false, [];
        }
        data := data + chunk;
      }
      return true, data;
    }
  }

  lemma Assoc<T>(a: seq<T>, b: seq<T>, c: seq<T>)
    ensures (a + b) + c == a + (b + c)
  {}

  lemma Uncons<T>(s: seq<T>, t: seq<T>)
    requires s != []
    ensures s + t == [s[0]] + (s[1..] + t)
  {}

  lemma PrefixTail<T>(a: seq<T>, b: seq<T>, c: seq<T>)
    requires a + b <= a + c
    ensures b <= c
  {
    assert b == (a + b)[|a|..] && c == (a + c)[|a|..];
  }

  /** Where `x` first occurs; the length when it does not. */
  function IndexOf<T(==)>(s: seq<T>, x: T): nat {
    if s == [] || s[0] == x then 0 else 1 + IndexOf(s[1..], x)
  }

  lemma {:induction false} IndexOfIs<T>(a: seq<T>, x: T, rest: seq<T>)
    requires x !in a
    ensures IndexOf(a + ([x] + rest), x) == |a|
  {
    if a == [] {
      assert a + ([x] + rest) == [x] + rest;
    } else {
      IndexOfIs(a[1..], x, rest);
      assert (a + ([x] + rest))[1..] == a[1..] + ([x] + rest);
    }
  }
}
