/** Shared value types: bytes and the usual Option / Result wrappers. */
module Base {

  /** One octet of a Python `bytes` object. */
  type byte = x: int | 0 <= x < 256

  datatype Option<T> = None | Some(value: T)

  datatype Result<T, E> = Ok(value: T) | Err(error: E)

  /** `n` zero bytes. */
  function Zeros(n: nat): (r: seq<byte>)
    ensures |r| == n
    ensures forall i :: 0 <= i < n ==> r[i] == 0
  {
    if n == 0 then [] else [0] + Zeros(n - 1)
  }

  /** Python's `b.rstrip(b'\x00')`: drop every trailing zero byte. */
  function RStripZeros(b: seq<byte>): (r: seq<byte>)
    ensures |r| <= |b| && r == b[..|r|]
    ensures r == [] || r[|r| - 1] != 0
    ensures forall i :: |r| <= i < |b| ==> b[i] == 0
  {
    if b == [] || b[|b| - 1] != 0 then b else RStripZeros(b[..|b| - 1])
  }

  /** Stripping the zero padding off a byte string that does not itself end in a zero byte gives it back. */
  lemma RStripPadded(b: seq<byte>, n: nat)
    requires b == [] || b[|b| - 1] != 0
    ensures RStripZeros(b + Zeros(n)) == b
  {
    var x := b + Zeros(n);
    var r := RStripZeros(x);
    assert |r| <= |b| by {
      assert forall i :: |b| <= i < |x| ==> x[i] == 0;
    }
    assert |r| >= |b| by {
      assert b != [] ==> x[|b| - 1] == b[|b| - 1];
    }
    assert r == x[..|b|] == b;
  }

  /** The head and the tail of a sequence built by prepending one element. */
  lemma ConsParts<T>(x: T, t: seq<T>)
    ensures ([x] + t)[0] == x && ([x] + t)[1..] == t
  {
  }

  /** A non-empty sequence is its head followed by its tail. */
  lemma HeadTail<T>(s: seq<T>)
    requires s != []
    ensures [s[0]] + s[1..] == s
  {
  }

  /** Element `k` of `[x] + t`, past the head. */
  lemma ConsAt<T>(x: T, t: seq<T>, k: nat)
    requires 0 < k <= |t|
    ensures ([x] + t)[k] == t[k - 1]
  {
  }

  /** Element `k - 1` of the tail is element `k` of the whole. */
  lemma TailAt<T>(s: seq<T>, k: nat)
    requires 0 < k < |s|
    ensures s[1..][k - 1] == s[k]
  {
  }

  lemma DropZero<T>(s: seq<T>)
    ensures s[0..] == s
  {
  }

  lemma SliceFromZero<T>(s: seq<T>, i: nat)
    requires i <= |s|
    ensures s[0..i] == s[..i]
  {
  }

  /** The first |a| elements of `a + c` are `a`. */
  lemma PrefixOfConcat<T>(a: seq<T>, c: seq<T>)
    ensures (a + c)[0..|a|] == a
  {
  }

  /** A slice of the second part of a concatenation, at its position in the whole. */
  lemma SliceOfConcat<T>(b: seq<T>, a: seq<T>, c: seq<T>, at: nat, i: nat, n: nat, x: seq<T>)
    requires b == a + c && at == |a| + i && i + n <= |c| && c[i..i + n] == x
    ensures at + n <= |b| && b[at..at + n] == x
  {
    assert b[at..at + n] == c[i..i + n];
  }

  /** A slice of a suffix is a slice of the whole, shifted. */
  lemma SliceOfDrop<T>(s: seq<T>, w: nat, at: nat, i: nat, n: nat)
    requires at == w + i && at + n <= |s|
    ensures s[w..][i..i + n] == s[at..at + n]
  {
  }

  /** Element `k` of `[x] + t`, past the head, when `v` is that sequence. */
  lemma ConsAtEq<T>(v: seq<T>, x: T, t: seq<T>, k: nat, y: T)
    requires v == [x] + t && 0 < k <= |t| && t[k - 1] == y
    ensures v[k] == y
  {
  }

  /** Dropping the first part of a concatenation. */
  lemma DropConcat<T>(a: seq<T>, c: seq<T>)
    ensures (a + c)[|a|..] == c
  {
  }

  /** The last element of `a + c`, for a non-empty `c`. */
  lemma LastOfConcat<T>(a: seq<T>, c: seq<T>)
    requires c != []
    ensures (a + c)[|a + c| - 1] == c[|c| - 1]
  {
  }

  /** The middle and last parts of `a + b + c`. */
  lemma ThreeParts<T>(a: seq<T>, b: seq<T>, c: seq<T>)
    ensures (a + b + c)[|a|..|a| + |b|] == b && (a + b + c)[|a| + |b|..] == c
  {
  }

  /** A sequence split at `i` and put back together. */
  lemma SplitJoin<T>(s: seq<T>, i: nat)
    requires i <= |s|
    ensures s[..i] + s[i..] == s
  {
  }

  /** What `user.recv(n)` does on a socket that select reported readable. */
  datatype Recv =
    | Incoming(available: seq<byte>)  // the bytes waiting on the socket (empty: the peer closed)
    | Reset                           // ConnectionResetError

  /** `sock.recv(n)`: at most n of the bytes waiting. */
  function Received(n: nat, available: seq<byte>): (r: seq<byte>)
    ensures |r| == if |available| <= n then |available| else n
    ensures r == available[..|r|]
  {
    if |available| <= n then available else available[..n]
  }
}
