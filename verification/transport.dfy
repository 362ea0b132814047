/** The injected `read`/`write` function pointers of the driver structure,
    modelled as a scripted byte source and sink: `incoming` is what the module
    will send, `grants` caps what each successive `read` call may deliver (a
    short read, or 0 for a stall), and `outgoing` collects what the host
    wrote. An empty `grants` puts no cap on any read. */
module Transport {
  import opened Bytes

  /** `a` with `bytes` copied over it from position `at`. */
  function Overlay(a: seq<uint8>, at: nat, bytes: seq<uint8>): (r: seq<uint8>)
    requires at + |bytes| <= |a|
    ensures |r| == |a|
  {
    a[..at] + bytes + a[at + |bytes|..]
  }

  /** The copy lands where it should and nothing else moves. */
  lemma OverlayParts(a: seq<uint8>, at: nat, bytes: seq<uint8>)
    requires at + |bytes| <= |a|
    ensures Overlay(a, at, bytes)[..at] == a[..at]
    ensures Overlay(a, at, bytes)[at..at + |bytes|] == bytes
    ensures Overlay(a, at, bytes)[at + |bytes|..] == a[at + |bytes|..]
  {
  }

  /** Copying `x` over the start of `a` and then `y` right after it is one
      copy of `x + y`. */
  lemma OverlayJoin(a: seq<uint8>, b: seq<uint8>, x: seq<uint8>, y: seq<uint8>)
    requires |b| == |a| && |x| + |y| <= |a|
    requires b[..|x|] == x && b[|x|..] == a[|x|..]
    ensures Overlay(b, |x|, y) == Overlay(a, 0, x + y)
  {
    var k := |x|;
    var o := Overlay(b, k, y);
    var q := Overlay(a, 0, x + y);
    OverlayParts(b, k, y);
    OverlayParts(a, 0, x + y);
    forall i | 0 <= i < |a| ensures o[i] == q[i] {
      if i < k {
        assert o[i] == o[..k][i] == b[..k][i];
        assert q[i] == q[0..k + |y|][i] == (x + y)[i];
      } else if i < k + |y| {
        assert o[i] == o[k..k + |y|][i - k];
        assert q[i] == q[0..k + |y|][i] == (x + y)[i];
      } else {
        assert o[i] == o[k + |y|..][i - k - |y|];
        assert q[i] == q[0 + |x + y|..][i - k - |y|];
      }
    }
  }

  /** `a` holds `before` with `bytes` copied over it from position `at`. */
  ghost predicate Landed(a: array<uint8>, before: seq<uint8>, at: nat, bytes: seq<uint8>)
    reads a
  {
    && |before| == a.Length && at + |bytes| <= a.Length
    && forall i | 0 <= i < a.Length :: a[i] == if at <= i < at + |bytes| then bytes[i - at] else before[i]
  }

  /** Read as a whole, a landed array is the overlay. */
  lemma LandedOverlay(a: array<uint8>, before: seq<uint8>, at: nat, bytes: seq<uint8>)
    requires Landed(a, before, at, bytes)
    ensures a[..] == Overlay(before, at, bytes)
  {
    var o := Overlay(before, at, bytes);
    OverlayParts(before, at, bytes);
    forall i | 0 <= i < a.Length ensures a[i] == o[i] {
      if i < at {
        assert o[i] == o[..at][i];
      } else if i < at + |bytes| {
        assert o[i] == o[at..at + |bytes|][i - at];
      } else {
        assert o[i] == o[at + |bytes|..][i - at - |bytes|];
      }
    }
  }

  /** The copied bytes are in place and the cells on either side are as
      before. */
  lemma LandedParts(a: array<uint8>, before: seq<uint8>, at: nat, bytes: seq<uint8>)
    requires Landed(a, before, at, bytes)
    ensures a[..at] == before[..at] && a[at..at + |bytes|] == bytes
    ensures a[at + |bytes|..] == before[at + |bytes|..]
  {
    LandedOverlay(a, before, at, bytes);
    OverlayParts(before, at, bytes);
  }

  /** A second copy right after a first one extends it. */
  lemma LandedStep(a: array<uint8>, d0: seq<uint8>, at: nat, s: seq<uint8>, k: nat, got: nat)
    requires at + k + got <= |d0| && k + got <= |s|
    requires Landed(a, Overlay(d0, at, s[..k]), at + k, s[k..][..got])
    ensures Landed(a, d0, at, s[..k + got])
  {
    var o := Overlay(d0, at, s[..k]);
    OverlayParts(d0, at, s[..k]);
    forall i | 0 <= i < a.Length
      ensures a[i] == if at <= i < at + k + got then s[..k + got][i - at] else d0[i]
    {
      if i < at {
        assert o[i] == o[..at][i];
      } else if i < at + k {
        assert o[i] == o[at..at + k][i - at];
      } else if i >= at + k + got {
        assert o[i] == o[at + k..][i - at - k];
      }
    }
  }

  /** Taking `k` more bytes from position `pos` of a stream. */
  lemma Advance(s: seq<uint8>, pos: nat, k: nat)
    requires pos + k <= |s|
    ensures s[pos..][k..] == s[pos + k..] && s[pos..][..k] == s[pos..pos + k]
  {
  }

  class Port {
    var incoming: seq<uint8>
    var grants: seq<nat>
    var outgoing: seq<uint8>
    /** Number of `read` calls so far. */
    var readCalls: nat

    constructor (incoming: seq<uint8>, grants: seq<nat>)
      ensures this.incoming == incoming && this.grants == grants
      ensures outgoing == [] && readCalls == 0
    {
      this.incoming := incoming;
      this.grants := grants;
      outgoing := [];
      readCalls := 0;
    }

    /** How many bytes the next `read` of `want` bytes returns: never more than
        asked for, nor more than the module has sent, nor more than the
        script grants this call. */
    function Deliverable(want: nat): (n: nat)
      reads this
      ensures n <= want && n <= |incoming| && (grants != [] ==> n <= grants[0])
      ensures grants == [] ==> n == want || n == |incoming|
    {
      var n := Min(want, |incoming|);
      if grants == [] then n else Min(n, grants[0])
    }

    /** `read(dst + at, want, timeout)`: copies the delivered bytes into
        `dst[at..]`, leaves every other cell alone and returns their number.
        The timeout argument of the C call is not modelled. */
    method Read(dst: array<uint8>, at: nat, want: nat) returns (got: nat)
      requires at + want <= dst.Length
      modifies this, dst
      ensures got == old(Deliverable(want)) && got <= want
      ensures got <= |old(incoming)| && incoming == old(incoming)[got..]
      ensures Landed(dst, old(dst[..]), at, old(incoming)[..got])
      ensures grants == if old(grants) == [] then [] else old(grants)[1..]
      ensures outgoing == old(outgoing) && readCalls == old(readCalls) + 1
    {
      got := Deliverable(want);
      forall i | at <= i < at + got {
        dst[i] := incoming[i - at];
      }
      incoming := incoming[got..];
      if grants != [] {
        grants := grants[1..];
      }
      readCalls := readCalls + 1;
    }

    /** `write(bytes, n, timeout)`: the bytes are appended to what the host
        has sent. */
    method Write(bytes: seq<uint8>)
      modifies this
      ensures outgoing == old(outgoing) + bytes
      ensures incoming == old(incoming) && grants == old(grants) && readCalls == old(readCalls)
    {
      outgoing := outgoing + bytes;
    }
  }
}
