/** The recorded chunk list: `ondataavailable` keeps a delivered blob only
    when it is non-empty, in arrival order, and the final video is the
    concatenation of the kept chunks. */
module Chunks {
  import opened Seqs

  /** The bytes of one delivered `Blob`. */
  type Blob = seq<bv8>

  /** The chunks kept from the first `n` blobs delivered. */
  function NonEmptyUpTo(delivered: seq<Blob>, n: nat): (kept: seq<Blob>)
    requires n <= |delivered|
    ensures |kept| <= n
    ensures forall i :: 0 <= i < |kept| ==> |kept[i]| > 0
  {
    if n == 0 then []
    else
      var last := delivered[n - 1];
      NonEmptyUpTo(delivered, n - 1) + (if |last| > 0 then [last] else [])
  }

  /** The chunks kept from the blobs delivered so far. */
  function NonEmpty(delivered: seq<Blob>): seq<Blob>
  {
    NonEmptyUpTo(delivered, |delivered|)
  }

  /** The chunks kept from the first `n` blobs depend on those blobs alone. */
  lemma {:induction false} NonEmptyUpToPrefix(s: seq<Blob>, t: seq<Blob>, n: nat)
    requires n <= |s| && n <= |t|
    requires forall i :: 0 <= i < n ==> s[i] == t[i]
    ensures NonEmptyUpTo(s, n) == NonEmptyUpTo(t, n)
  {
    if n > 0 {
      NonEmptyUpToPrefix(s, t, n - 1);
    }
  }

  /** A delivered blob is appended to the kept chunks exactly when it is
      non-empty. */
  lemma NonEmptySnoc(delivered: seq<Blob>, data: Blob)
    ensures NonEmpty(delivered + [data]) == NonEmpty(delivered) + (if |data| > 0 then [data] else [])
  {
    NonEmptyUpToPrefix(delivered, delivered + [data], |delivered|);
  }

  /** When nothing empty was delivered, every blob is kept, in order. */
  lemma {:induction false} NonEmptyKeepsAll(delivered: seq<Blob>, n: nat)
    requires n <= |delivered|
    requires forall i :: 0 <= i < |delivered| ==> |delivered[i]| > 0
    ensures NonEmptyUpTo(delivered, n) == delivered[..n]
  {
    if n > 0 {
      NonEmptyKeepsAll(delivered, n - 1);
      assert delivered[..n] == delivered[..n - 1] + [delivered[n - 1]];
    }
  }

  /** Dropping the empty blobs does not change the recorded bytes: the video
      is all the delivered data, in arrival order. */
  lemma {:induction false} NonEmptyKeepsBytes(delivered: seq<Blob>, n: nat)
    requires n <= |delivered|
    ensures Flatten(NonEmptyUpTo(delivered, n)) == Flatten(delivered[..n])
  {
    if n > 0 {
      var prefix := delivered[..n - 1];
      var last := delivered[n - 1];
      var kept := NonEmptyUpTo(delivered, n - 1);
      NonEmptyKeepsBytes(delivered, n - 1);
      assert delivered[..n] == prefix + [last];
      FlattenSnoc(prefix, last);
      if |last| > 0 {
        FlattenSnoc(kept, last);
      } else {
        assert NonEmptyUpTo(delivered, n) == kept;
        assert Flatten(prefix) + last == Flatten(prefix);
      }
    }
  }
}
