/**
 saltedReader of cmd/go-openssl: an endless byte stream made of hash blocks. The hash is a
 parameter; all the reader relies on is that it returns 32 bytes.
 */
module SaltedReader {
  import opened GoStrings

  /** binary.BigEndian.PutUint64 for width 8. */
  function BigEndian(n: nat, width: nat): Bytes {
    if width == 0 then [] else BigEndian(n / 0x100, width - 1) + [(n % 0x100) as char]
  }

  /** The number whose bytes these are, the most significant one first. */
  function Base256(bytes: Bytes): nat {
    if bytes == [] then 0 else 0x100 * Base256(bytes[..|bytes| - 1]) + bytes[|bytes| - 1] as int
  }

  function Power256(width: nat): nat {
    if width == 0 then 1 else 0x100 * Power256(width - 1)
  }

  lemma {:induction false} BigEndianReads(n: nat, width: nat)
    requires n < Power256(width)
    ensures |BigEndian(n, width)| == width && Base256(BigEndian(n, width)) == n
  {
    if width > 0 {
      BigEndianReads(n / 0x100, width - 1);
      var bytes := BigEndian(n, width);
      assert bytes[..width - 1] == BigEndian(n / 0x100, width - 1);
    }
  }

  lemma {:induction false} Base256IsInjective(a: Bytes, b: Bytes)
    requires |a| == |b| && Base256(a) == Base256(b)
    ensures a == b
    decreases |a|
  {
    if a != [] {
      var n := |a| - 1;
      Base256IsInjective(a[..n], b[..n]);
      assert a == a[..n] + [a[n]] && b == b[..n] + [b[n]];
    }
  }

  /** The eight bytes of a counter are the ones whose number, most significant byte first, it is. */
  lemma EightBytes(counter: nat, bytes: Bytes)
    requires counter < 0x1_0000_0000_0000_0000
    ensures bytes == BigEndian(counter, 8) <==> |bytes| == 8 && Base256(bytes) == counter
  {
    assert Power256(4) == 0x1_0000_0000;
    assert Power256(8) == 0x1_0000_0000_0000_0000;
    BigEndianReads(counter, 8);
    if |bytes| == 8 && Base256(bytes) == counter {
      Base256IsInjective(bytes, BigEndian(counter, 8));
    }
  }

  /** The 64-bit counter after i increments. */
  function Counter(i: nat): nat {
    i % 0x1_0000_0000_0000_0000
  }

  function Increment(counter: nat): nat {
    Counter(counter + 1)
  }

  lemma IncrementCounts(i: nat)
    ensures Increment(Counter(i)) == Counter(i + 1)
  {
  }

  /** What the blocks of a reader are computed from. */
  datatype Source = Source(hash: Bytes -> Bytes, seed: Bytes, salt: Bytes) {

    ghost predicate Lawful() {
      forall input: Bytes :: |hash(input)| == 32
    }

    function Block(counter: nat): Bytes {
      hash(seed + salt + BigEndian(counter, 8))
    }

    /** Block number i hashes seed, salt and the eight bytes of the counter, in this order. */
    lemma BlockInput(i: nat, bytes: Bytes)
      requires |bytes| == 8 && Base256(bytes) == i % 0x1_0000_0000_0000_0000
      ensures Block(Counter(i)) == hash(seed + salt + bytes)
    {
      EightBytes(Counter(i), bytes);
    }

    /** The first block is number 0, and each next block counts one more. */
    lemma StreamIsBlocks(n: nat, i: nat)
      requires Lawful() && i < n
      ensures |Stream(n)| == 32 * n && Stream(n)[32 * i..32 * (i + 1)] == Block(Counter(i))
    {
      StreamLength(n);
      StreamLength(i);
      StreamLength(i + 1);
      StreamGrows(i + 1, n);
      assert Stream(i + 1)[32 * i..] == Block(Counter(i));
      assert Stream(n)[..32 * (i + 1)] == Stream(i + 1);
    }

    /** block(0) + block(1) + ... + block(n - 1). */
    ghost function Stream(n: nat): Bytes {
      if n == 0 then [] else Stream(n - 1) + Block(Counter(n - 1))
    }

    lemma {:induction false} StreamLength(n: nat)
      requires Lawful()
      ensures |Stream(n)| == 32 * n
    {
      if n > 0 {
        StreamLength(n - 1);
      }
    }

    lemma {:induction false} StreamGrows(m: nat, n: nat)
      requires m <= n
      ensures Stream(m) <= Stream(n)
    {
      if m < n {
        StreamGrows(m, n - 1);
      }
    }

    /** Two outputs of the same source agree as far as the shorter one goes. */
    lemma OutputsAgree(a: Bytes, m: nat, b: Bytes, n: nat)
      requires a <= Stream(m) && b <= Stream(n) && |a| <= |b|
      ensures a <= b
    {
      if m <= n {
        StreamGrows(m, n);
      } else {
        StreamGrows(n, m);
      }
    }
  }

  class SaltedReader {
    const source: Source
    var counter: nat
    var buffer: Bytes
    /** Everything read so far, and the number of blocks it took. */
    ghost var output: Bytes
    ghost var produced: nat

    /** What was read and what is buffered are exactly the blocks produced. */
    ghost predicate Valid()
      reads this
    {
      && source.Lawful()
      && counter == Counter(produced)
      && output + buffer == source.Stream(produced)
    }

    constructor (source: Source)
      requires source.Lawful()
      ensures Valid() && output == [] && this.source == source
    {
      this.source := source;
      counter, buffer, output, produced := 0, [], [], 0;
    }

    method NextBlock()
      requires Valid() && buffer == []
      modifies this`counter, this`buffer, this`produced
      ensures Valid() && buffer != []
    {
      IncrementCounts(produced);
      buffer := source.Block(counter);
      counter := Increment(counter);
      produced := produced + 1;
      assert output + [] == output;
    }

    /** copy(p[from:], buffer); the copied bytes leave the buffer. */
    method Copy(p: array<Byte>, from: nat) returns (copied: nat)
      requires Valid() && buffer != [] && from < p.Length
      modifies this`buffer, this`output, p
      ensures Valid() && 0 < copied <= p.Length - from
      ensures p[..from] == old(p[..from]) && output == old(output) + p[from..from + copied]
    {
      var bytes := buffer;
      copied := if |bytes| < p.Length - from then |bytes| else p.Length - from;
      CopyBytes(p, from, bytes[..copied]);
      buffer := bytes[copied..];
      output := output + bytes[..copied];
      Consumed(old(output), bytes, copied);
    }

    static lemma Consumed(output: Bytes, bytes: Bytes, n: nat)
      requires n <= |bytes|
      ensures output + bytes[..n] + bytes[n..] == output + bytes
    {
      assert bytes[..n] + bytes[n..] == bytes;
    }

    static method CopyBytes(p: array<Byte>, from: nat, bytes: Bytes)
      requires from + |bytes| <= p.Length
      modifies p
      ensures p[..from] == old(p[..from]) && p[from..from + |bytes|] == bytes
    {
      for i := 0 to |bytes|
        invariant forall j | 0 <= j < from :: p[j] == old(p[j])
        invariant forall j | 0 <= j < i :: p[from + j] == bytes[j]
      {
        p[from + i] := bytes[i];
      }
    }

    static lemma JoinSlices(p: array<Byte>, m: nat, n: nat, before: Bytes, front: Bytes)
      requires m <= n <= p.Length && p[..m] == before
      ensures (front + before) + p[m..n] == front + p[..n]
    {
      assert p[..n] == p[..m] + p[m..n];
    }

    /** Read fills p completely with the next bytes of the stream. */
    method Read(p: array<Byte>) returns (total: nat)
      requires Valid()
      modifies this`counter, this`buffer, this`output, this`produced, p
      ensures Valid()
      ensures total == p.Length && output == old(output) + p[..]
      ensures output <= source.Stream(produced)
    {
      total := 0;
      while total < p.Length
        invariant 0 <= total <= p.Length
        invariant Valid() && output == old(output) + p[..total]
      {
        if |buffer| == 0 {
          NextBlock();
        }
        ghost var before := p[..total];
        var copied := Copy(p, total);
        JoinSlices(p, total, total + copied, before, old(output));
        total := total + copied;
      }
      assert p[..total] == p[..];
    }
  }
}
