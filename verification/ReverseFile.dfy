/** Copying a file backwards: the name in one buffer loop, the contents in 32-byte blocks
    read from the last to the first. */
module ReverseFile {
  import opened Bytes
  import opened Wrappers
  import opened CStrings

  const BLOCK: nat := 32

  function Reversed<T>(s: seq<T>): (r: seq<T>)
    ensures |r| == |s|
  {
    seq(|s|, i requires 0 <= i < |s| => s[|s| - 1 - i])
  }

  lemma ReversedTwice<T>(s: seq<T>)
    ensures Reversed(Reversed(s)) == s
  {
  }

  lemma ReversedConcat<T>(a: seq<T>, b: seq<T>)
    ensures Reversed(a + b) == Reversed(b) + Reversed(a)
  {
  }

  /** Different names have different reversals, so siblings never collide. */
  lemma ReversedInjective<T>(a: seq<T>, b: seq<T>)
    requires Reversed(a) == Reversed(b)
    ensures a == b
  {
    ReversedTwice(a);
    ReversedTwice(b);
  }

  /** reverse: the first len characters of str, backwards, into res. */
  method Reverse(str: array<char>, res: array<char>, len: nat)
    requires len <= str.Length && len <= res.Length && str != res
    modifies res
    ensures res[..len] == Reversed(str[..len])
    ensures res[len..] == old(res[len..])
  {
    var i := 0;
    while i < len
      invariant 0 <= i <= len
      invariant forall k :: 0 <= k < i ==> res[len - k - 1] == str[k]
      invariant forall k :: len <= k < res.Length ==> res[k] == old(res[k])
    {
      res[len - i - 1] := str[i];
      i := i + 1;
    }
    forall k | 0 <= k < len ensures res[k] == str[len - 1 - k] {
      assert res[len - (len - 1 - k) - 1] == str[len - 1 - k];
    }
  }

  /** A file name turned around into a buffer with room for a terminator that nothing writes. */
  method ReverseName(name: string, res: array<char>)
    requires res.Length == |name| + 1
    modifies res
    ensures res[..] == Reversed(name) + [old(res[|name|])]
  {
    var str := new char[|name|](i requires 0 <= i < |name| => name[i]);
    Reverse(str, res, |name|);
    assert str[..|name|] == name;
    assert res[|name|..] == [old(res[|name|])];
    assert res[..] == res[..|name|] + res[|name|..];
  }

  /** Whoever prints or opens the name reads the reversal if and only if the place behind it
      held a zero byte before; otherwise nothing ends the string inside the buffer. */
  lemma NameReadBack(name: string, last: char)
    requires NUL !in name
    ensures ReadBack(Reversed(name) + [last]) == if last == NUL then Some(Reversed(name)) else None
  {
    var r := Reversed(name);
    forall k | 0 <= k < |r| ensures r[k] != NUL {
      assert r[k] == name[|name| - 1 - k];
    }
    if last == NUL {
      CStringOfPrefix(r, [last]);
      assert (r + [last])[|r|] == NUL;
    }
  }

  /** One block written backwards: buffer[n-1] first, buffer[0] last. */
  method WriteBackwards(buffer: array<Byte>, n: nat, out: seq<Byte>) returns (more: seq<Byte>)
    requires n <= buffer.Length
    ensures more == out + Reversed(buffer[..n])
  {
    more := out;
    var i := n - 1;
    while i >= 0
      invariant -1 <= i < n
      invariant more == out + Reversed(buffer[i + 1..n])
      decreases i
    {
      assert buffer[i..n] == [buffer[i]] + buffer[i + 1..n];
      ReversedConcat([buffer[i]], buffer[i + 1..n]);
      more := more + [buffer[i]];
      i := i - 1;
    }
  }

  /** reverse_file: whatever the size, the blocks from the last to the first come out as the
      whole file reversed. */
  method ReverseContents(input: seq<Byte>) returns (out: seq<Byte>)
    ensures out == Reversed(input)
  {
    var size := |input|;
    var buffer := new Byte[BLOCK];
    var count := if size % BLOCK > 0 then size / BLOCK + 1 else size / BLOCK;
    out := [];
    ghost var rest := size;           // everything from here on has been written
    while count > 0
      invariant rest == if count * BLOCK >= size then size else count * BLOCK
      invariant 0 <= count && (count > 0 ==> (count - 1) * BLOCK < size)
      invariant out == Reversed(input[rest..])
    {
      count := count - 1;
      var start := BLOCK * count;
      var readSize := if count == size / BLOCK then size % BLOCK else BLOCK;
      assert start + readSize == rest;
      forall i | 0 <= i < readSize { buffer[i] := input[start + i]; }
      assert buffer[..readSize] == input[start..rest];
      out := WriteBackwards(buffer, readSize, out);
      assert input[start..] == input[start..rest] + input[rest..];
      ReversedConcat(input[start..rest], input[rest..]);
      rest := start;
    }
  }
}
