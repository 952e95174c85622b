/** Sliding windows over a fixed-size buffer that is overwritten in a circle, as the
    sample rings of internal/util and priority are. */
module Rings {

  /** The last n elements of s, or all of s when it is shorter. */
  function LastN<T>(s: seq<T>, n: nat): (r: seq<T>)
    ensures |r| == if |s| <= n then |s| else n
    ensures forall i :: 0 <= i < |r| ==> r[i] == s[|s| - |r| + i]
  {
    if |s| <= n then s else s[|s| - n..]
  }

  /** Sliding a window one element at a time gives the last n elements of the whole history. */
  lemma {:induction false} LastNSlides<T>(s: seq<T>, x: T, n: nat)
    ensures LastN(LastN(s, n) + [x], n) == LastN(s + [x], n)
  {
  }

  /** Before a window is full it grows; then its oldest element gives way. */
  lemma {:induction false} LastNAdds<T>(w: seq<T>, x: T, n: nat)
    requires 0 < n && |w| <= n
    ensures LastN(w + [x], n) == (if |w| < n then w else w[1..]) + [x]
  {
    if |w| == n {
      assert LastN(w + [x], n) == (w + [x])[1..];
    }
  }

  lemma {:induction false} LastNTwice<T>(s: seq<T>, cap: nat, k: nat)
    requires k <= cap
    ensures LastN(LastN(s, cap), k) == LastN(s, k)
  {
  }

  lemma {:induction false} LastNAppend<T>(s: seq<T>, x: T, k: nat)
    requires 1 <= k <= |s| + 1
    ensures LastN(s + [x], k) == LastN(s, k - 1) + [x]
  {
    var from := |s| + 1 - k;
    assert LastN(s + [x], k) == (s + [x])[from..];
    assert LastN(s, k - 1) == s[from..];
    assert (s + [x])[from..] == s[from..] + [x];
  }

  /** A window as long as the newer part is taken from that part. */
  lemma {:induction false} LastNOfConcat<T>(a: seq<T>, b: seq<T>, n: nat)
    requires |b| >= n
    ensures LastN(a + b, n) == LastN(b, n)
  {
    assert (a + b)[|a| + |b| - n..] == b[|b| - n..];
  }

  /** A ring of capacity cap holding size elements, to be written next at head. */
  ghost predicate Shape(cap: nat, size: nat, head: nat) {
    size <= cap && head < cap && (size < cap ==> head == size)
  }

  /** The elements of a ring, oldest first. */
  ghost function Content<T>(buf: seq<T>, size: nat, head: nat): (r: seq<T>)
    requires Shape(|buf|, size, head)
    ensures |r| == size
  {
    if size < |buf| then buf[..size] else buf[head..] + buf[..head]
  }

  /** The slot after i. */
  function Next(i: nat, cap: nat): (r: nat)
    requires i < cap
    ensures r < cap
  {
    if i + 1 == cap then 0 else i + 1
  }

  lemma NextIsModulo(i: nat, cap: nat)
    requires i < cap
    ensures (i + 1) % cap == Next(i, cap)
  {
    if i + 1 < cap {
      SmallModulo(i + 1, cap);
    }
  }

  lemma SmallModulo(i: nat, cap: nat)
    requires i < cap
    ensures i % cap == i
  {
  }

  /** Overwriting the slot at head slides the window by one, and the slot of a full ring held the oldest element. */
  lemma Write<T>(buf: seq<T>, size: nat, head: nat, x: T)
    requires Shape(|buf|, size, head)
    ensures var size' := if size < |buf| then size + 1 else size;
            && Shape(|buf|, size', Next(head, |buf|))
            && Content(buf[head := x], size', Next(head, |buf|)) == LastN(Content(buf, size, head) + [x], |buf|)
    ensures size == |buf| ==> Content(buf, size, head)[0] == buf[head]
  {
    hide LastN;
    var buf' := buf[head := x];
    LastNAdds(Content(buf, size, head), x, |buf|);
    if size < |buf| {
      assert buf'[..size + 1] == buf[..size] + [x];
      assert size + 1 == |buf| ==> buf'[0..] + buf'[..0] == buf'[..size + 1];
    } else {
      WriteFull(buf, head, x);
    }
  }

  lemma {:induction false} WriteFull<T>(buf: seq<T>, head: nat, x: T)
    requires head < |buf|
    ensures var next, buf' := Next(head, |buf|), buf[head := x];
            buf'[next..] + buf'[..next] == (buf[head..] + buf[..head])[1..] + [x]
  {
    var buf' := buf[head := x];
    assert (buf[head..] + buf[..head])[1..] == buf[head + 1..] + buf[..head];
    assert buf'[..head + 1] == buf[..head] + [x];
    assert buf'[head + 1..] == buf[head + 1..];
    if head + 1 == |buf| {
      assert buf'[0..] + buf'[..0] == buf'[..head + 1];
    }
  }

  // ---------------------------------------------------------------- counting in a sliding window

  /** How often v occurs in w. */
  function Count<T(==)>(w: seq<T>, v: T): (n: nat)
    ensures n <= |w|
  {
    if w == [] then 0 else Count(w[..|w| - 1], v) + (if w[|w| - 1] == v then 1 else 0)
  }

  lemma {:induction false} CountAppend<T>(w: seq<T>, x: T, v: T)
    ensures Count(w + [x], v) == Count(w, v) + (if x == v then 1 else 0)
  {
    assert (w + [x])[..|w|] == w;
  }

  lemma {:induction false} CountDropFirst<T>(w: seq<T>, v: T)
    requires w != []
    ensures Count(w, v) == (if w[0] == v then 1 else 0) + Count(w[1..], v)
  {
    if |w| > 1 {
      CountDropFirst(w[..|w| - 1], v);
      assert w[..|w| - 1][1..] == w[1..][..|w| - 2];
    } else {
      assert w[1..] == [];
    }
  }

  /** The counter of the oldest element is at least one, so its decrement does not underflow. */
  lemma {:induction false} OldestIsCounted<T>(w: seq<T>)
    ensures w != [] ==> Count(w, w[0]) >= 1
  {
    if w != [] {
      CountDropFirst(w, w[0]);
    }
  }

  /** A count over a window that slides: the newest element comes in, the oldest goes out when the window is full. */
  lemma {:induction false} CountSlides<T>(w: seq<T>, cap: nat, x: T, v: T)
    requires cap > 0 && |w| <= cap
    ensures Count(LastN(w + [x], cap), v)
         == Count(w, v) - (if |w| == cap && w[0] == v then 1 else 0) + (if x == v then 1 else 0)
  {
    CountAppend(w, x, v);
    if |w| == cap {
      CountDropFirst(w + [x], v);
    }
  }
}
