// Content digests of the form "algorithm:hex" (distribution/digest/digest.go).
module Digests {
  import opened Options
  type Digest = string

  datatype DigestError = InvalidFormat | InvalidLength | Unsupported

  const SHA256 := "sha256"
  const SHA384 := "sha384"
  const SHA512 := "sha512"

  // Number of bytes an algorithm produces; zero for an unknown one.
  function Size(alg: string): nat {
    if alg == SHA256 then 32
    else if alg == SHA384 then 48
    else if alg == SHA512 then 64
    else 0
  }

  predicate IsAlgorithmChar(c: char) {
    'a' <= c <= 'z' || 'A' <= c <= 'Z' || '0' <= c <= '9' || c in "-_+."
  }

  predicate IsHexChar(c: char) {
    'a' <= c <= 'f' || 'A' <= c <= 'F' || '0' <= c <= '9'
  }

  // Position of the first colon, or -1.
  function SepIndex(s: string): (i: int)
    ensures -1 <= i < |s|
    ensures i == -1 <==> ':' !in s
    ensures i >= 0 ==> s[i] == ':' && ':' !in s[..i]
  {
    if s == "" then -1
    else if s[0] == ':' then 0
    else
      var r := SepIndex(s[1..]);
      assert s == [s[0]] + s[1..];
      if r == -1 then -1
      else
        assert s[..r + 1] == [s[0]] + s[1..][..r];
        r + 1
  }

  // The anchored expression of digest.go: one or more algorithm characters,
  // a colon, one or more hexadecimal characters.
  predicate HasDigestFormat(s: string) {
    var i := SepIndex(s);
    && 0 < i < |s| - 1
    && (forall k | 0 <= k < i :: IsAlgorithmChar(s[k]))
    && (forall k | i < k < |s| :: IsHexChar(s[k]))
  }

  function Algorithm(d: Digest): string
    requires ':' in d
  {
    d[..SepIndex(d)]
  }

  function Hex(d: Digest): string
    requires ':' in d
  {
    d[SepIndex(d) + 1..]
  }

  function Validate(d: Digest): (r: Option<DigestError>)
    ensures r.None? ==> ':' in d && Algorithm(d) in {SHA256, SHA384, SHA512} && |Hex(d)| == 2 * Size(Algorithm(d))
    ensures r != Some(InvalidFormat) ==> ':' in d
  {
    if !HasDigestFormat(d) then Some(InvalidFormat)
    else if Algorithm(d) in {SHA256, SHA384, SHA512} then
      if 2 * Size(Algorithm(d)) != |Hex(d)| then Some(InvalidLength) else None
    else Some(Unsupported)
  }

  predicate Valid(d: Digest) {
    Validate(d).None?
  }

  // A digest is its algorithm, a colon and its hex.
  lemma DigestParts(d: Digest)
    requires ':' in d
    ensures d == Algorithm(d) + ":" + Hex(d)
  {
  }

  // Among valid digests the hex alone fixes the algorithm, because each
  // algorithm has its own length.
  lemma HexFixesDigest(d: Digest, e: Digest)
    requires Valid(d) && Valid(e) && Hex(d) == Hex(e)
    ensures d == e
  {
    DigestParts(d);
    DigestParts(e);
  }

  // A string without a colon is never read as a digest.
  lemma NoColonNoDigest(s: string)
    requires ':' !in s
    ensures Validate(s) == Some(InvalidFormat)
  {
  }

  lemma SepIndexIs(s: string, i: nat)
    requires i < |s| && s[i] == ':' && ':' !in s[..i]
    ensures SepIndex(s) == i
  {
    assert s[i] in s;
    var j := SepIndex(s);
    assert forall k | 0 <= k < i :: s[..i][k] == s[k];
    assert forall k | 0 <= k < j :: s[..j][k] == s[k];
  }

  // Putting an algorithm and a hex of the right length together gives a valid digest.
  lemma ComposedDigest(alg: string, hex: string)
    requires alg in {SHA256, SHA384, SHA512} && |hex| == 2 * Size(alg)
    requires forall k | 0 <= k < |hex| :: IsHexChar(hex[k])
    ensures Valid(alg + ":" + hex) && Algorithm(alg + ":" + hex) == alg && Hex(alg + ":" + hex) == hex
  {
    var s := alg + ":" + hex;
    assert s[..|alg|] == alg && s[|alg| + 1..] == hex;
    SepIndexIs(s, |alg|);
    assert forall k | |alg| < k < |s| :: s[k] == hex[k - |alg| - 1];
    assert forall k | 0 <= k < |alg| :: s[k] == alg[k];
    assert HasDigestFormat(s);
  }

  predicate AllHex(s: string) {
    forall k | 0 <= k < |s| :: 'a' <= s[k] <= 'f' || 'A' <= s[k] <= 'F' || '0' <= s[k] <= '9'
  }

  lemma HexFrom(s: string, n: nat)
    requires n <= |s|
    ensures AllHex(s[n..]) <==> forall k | n <= k < |s| :: IsHexChar(s[k])
  {
    var hex := s[n..];
    assert forall k | 0 <= k < |hex| :: hex[k] == s[n + k];
    assert forall k | n <= k < |s| :: s[k] == hex[k - n];
  }

  // A string taken apart at its first colon.
  lemma FormatOf(alg: string, hex: string)
    requires ':' !in alg
    ensures var s := alg + ":" + hex;
            && ':' in s && Algorithm(s) == alg && Hex(s) == hex
            && (HasDigestFormat(s) <==> alg != "" && hex != "" && AllHex(hex) && forall c | c in alg :: IsAlgorithmChar(c))
  {
    hide SepIndex, IsHexChar, IsAlgorithmChar, AllHex;
    var s := alg + ":" + hex;
    assert s[..|alg|] == alg && s[|alg| + 1..] == hex;
    SepIndexIs(s, |alg|);
    HexFrom(s, |alg| + 1);
    assert forall k | 0 <= k < |alg| :: s[k] == alg[k];
  }

  // The valid digests: each known algorithm with its own number of hexadecimal characters.
  lemma ValidExactly(d: Digest)
    ensures Valid(d) <==>
              && (("sha256:" <= d && |d| == 71) || ("sha384:" <= d && |d| == 103) || ("sha512:" <= d && |d| == 135))
              && AllHex(d[7..])
  {
    hide HasDigestFormat, SepIndex, AllHex, Algorithm, Hex;
    if "sha256:" <= d || "sha384:" <= d || "sha512:" <= d {
      var alg, hex := d[..6], d[7..];
      assert alg == "sha256" || alg == "sha384" || alg == "sha512" by {
        assert "sha256:"[..6] == "sha256" && "sha384:"[..6] == "sha384" && "sha512:"[..6] == "sha512";
      }
      assert d == alg + ":" + hex;
      assert alg == "sha256" <==> "sha256:" <= d;
      assert alg == "sha384" <==> "sha384:" <= d;
      assert alg == "sha512" <==> "sha512:" <= d;
      FormatOf(alg, hex);
      KnownAlgorithms(alg);
    } else if Valid(d) {
      DigestParts(d);
    }
  }

  // Which error other strings get; NoColonNoDigest has those without a colon.
  lemma RefusedExactly(alg: string, hex: string)
    requires ':' !in alg
    ensures Validate(alg + ":" + hex) == Some(InvalidFormat) <==>
              || alg == "" || hex == "" || !AllHex(hex)
              || exists c | c in alg :: !('a' <= c <= 'z' || 'A' <= c <= 'Z' || '0' <= c <= '9' || c in {'-', '_', '+', '.'})
    ensures Validate(alg + ":" + hex) == Some(InvalidLength) <==>
              && hex != "" && AllHex(hex)
              && ((alg == "sha256" && |hex| != 64) || (alg == "sha384" && |hex| != 96) || (alg == "sha512" && |hex| != 128))
  {
    hide HasDigestFormat, SepIndex, AllHex, Algorithm, Hex;
    FormatOf(alg, hex);
    if alg in {SHA256, SHA384, SHA512} {
      KnownAlgorithms(alg);
    }
  }

  lemma KnownAlgorithms(alg: string)
    requires alg in {"sha256", "sha384", "sha512"}
    ensures forall c | c in alg :: IsAlgorithmChar(c)
  {
  }
}
