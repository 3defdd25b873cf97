/** Runs of equal consecutive positions, which quantization and delta encoding collapse, and
    the padding that keeps short lines and rings valid. */
module Runs {
  import opened Base

  /** The positions with every run of equal consecutive ones reduced to its first. */
  function Compress(s: seq<Pos>): (c: seq<Pos>)
    ensures |c| <= |s|
  {
    if s == [] then []
    else
      var c := Compress(s[..|s| - 1]);
      if c != [] && c[|c| - 1] == s[|s| - 1] then c else c + [s[|s| - 1]]
  }

  /** What compressing keeps: empty exactly for the empty list, the same first and last
      positions, no two equal neighbours, and the same positions. */
  lemma {:induction false} CompressRuns(s: seq<Pos>)
    ensures var c := Compress(s);
            && (c == [] <==> s == [])
            && (s != [] ==> c[0] == s[0] && c[|c| - 1] == s[|s| - 1])
            && (forall k :: 0 <= k < |c| - 1 ==> c[k] != c[k + 1])
            && (forall p :: p in c <==> p in s)
  {
    if s != [] {
      var init := s[..|s| - 1];
      CompressRuns(init);
      assert s == init + [s[|s| - 1]];
      assert forall p :: p in s <==> p in init || p == s[|s| - 1];
    }
  }

  /** The positions followed by copies of the first until there are at least m. */
  function Pad(c: seq<Pos>, m: nat): (r: seq<Pos>)
    requires c != []
    ensures |r| == if |c| < m then m else |c|
    ensures r[..|c|] == c
    ensures forall k :: |c| <= k < |r| ==> r[k] == c[0]
  {
    if |c| < m then c + seq(m - |c|, _ => c[0]) else c
  }

  /** Compressing a prefix one position longer extends the compressed prefix by at most that
      position. */
  lemma CompressSnoc(s: seq<Pos>, i: nat)
    requires i < |s|
    ensures s[..i + 1][..i] == s[..i]
    ensures var c := Compress(s[..i]);
            Compress(s[..i + 1]) == if c != [] && c[|c| - 1] == s[i] then c else c + [s[i]]
  {
    assert s[..i + 1][..i] == s[..i];
  }
}
