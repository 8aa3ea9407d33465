/** Digested byte strings (src/artifact_catalog.rs). */
module ContentAddresses {
  import opened Numbers
  import opened Outcomes
  import opened Arithmetic

  type Byte = b: int | 0 <= b < 256

  /** A byte string whose length fits a 64-bit count. */
  type Bytes = s: seq<Byte> | |s| <= U64_MAX

  /** "audec:content-address:v1" and a terminating zero. */
  const PREFIX: seq<Byte> := [
    97, 117, 100, 101, 99, 58, 99, 111, 110, 116, 101, 110, 116, 45,
    97, 100, 100, 114, 101, 115, 115, 58, 118, 49, 0]

  function LittleEndian(n: nat, width: nat): (r: seq<Byte>)
    ensures |r| == width
    decreases width
  {
    if width == 0 then [] else [n % 256] + LittleEndian(n / 256, width - 1)
  }

  function FromLittleEndian(bytes: seq<Byte>): nat {
    if bytes == [] then 0 else bytes[0] + 256 * FromLittleEndian(bytes[1..])
  }

  function Pow256(k: nat): nat {
    if k == 0 then 1 else 256 * Pow256(k - 1)
  }

  function Delimited(part: Bytes): seq<Byte> {
    LittleEndian(|part|, 8) + part
  }

  function DelimitedAll(parts: seq<Bytes>): seq<Byte> {
    if parts == [] then [] else DelimitedAll(parts[..|parts| - 1]) + Delimited(parts[|parts| - 1])
  }

  function Preimage(domain: Bytes, parts: seq<Bytes>): seq<Byte> {
    PREFIX + Delimited(domain) + DelimitedAll(parts)
  }

  lemma AppendPart(head: seq<Byte>, parts: seq<Bytes>, i: nat)
    requires i < |parts|
    ensures head + DelimitedAll(parts[..i + 1])
         == head + DelimitedAll(parts[..i]) + LittleEndian(|parts[i]|, 8) + parts[i]
  {
    assert parts[..i + 1][..i] == parts[..i];
  }

  /** Appends each part behind its length. */
  method BuildPreimage(domain: Bytes, parts: seq<Bytes>) returns (canonical: seq<Byte>)
    ensures canonical == Preimage(domain, parts)
  {
    hide LittleEndian;
    canonical := PREFIX;
    canonical := canonical + LittleEndian(|domain|, 8);
    canonical := canonical + domain;
    ghost var head := PREFIX + Delimited(domain);
    assert canonical == head + DelimitedAll([]);
    hide *;
    for i := 0 to |parts|
      invariant canonical == head + DelimitedAll(parts[..i])
    {
      AppendPart(head, parts, i);
      canonical := canonical + LittleEndian(|parts[i]|, 8);
      canonical := canonical + parts[i];
    }
    assert parts[..|parts|] == parts;
    PreimageIs(domain, parts);
  }

  lemma PreimageIs(domain: Bytes, parts: seq<Bytes>)
    ensures Preimage(domain, parts) == PREFIX + Delimited(domain) + DelimitedAll(parts)
  {}

  const TAG: string := "audec:content-address:v1"

  /** The prefix is the text of the tag, byte by byte, and a zero. */
  lemma PrefixIsTheTag()
    ensures |PREFIX| == |TAG| + 1 && PREFIX[|TAG|] == 0
    ensures forall i :: 0 <= i < |TAG| ==> PREFIX[i] == TAG[i] as int
  {}

  // ----- reading it back

  /** Reads delimited parts until the end; fails on a string that is cut short. */
  function ReadParts(bytes: seq<Byte>): Option<seq<seq<Byte>>>
    decreases |bytes|
  {
    if bytes == [] then Some([])
    else if |bytes| < 8 then None
    else
      var n := FromLittleEndian(bytes[..8]);
      if |bytes| - 8 < n then None
      else
        match ReadParts(bytes[8 + n..])
        case None => None
        case Some(rest) => Some([bytes[8..8 + n]] + rest)
  }

  function ReadPreimage(bytes: seq<Byte>): Option<(seq<Byte>, seq<seq<Byte>>)> {
    if |bytes| < |PREFIX| || bytes[..|PREFIX|] != PREFIX then None
    else
      match ReadParts(bytes[|PREFIX|..])
      case None => None
      case Some(all) => if all == [] then None else Some((all[0], all[1..]))
  }

  lemma {:induction false} LittleEndianRoundTrip(n: nat, width: nat)
    requires n < Pow256(width)
    ensures FromLittleEndian(LittleEndian(n, width)) == n
    decreases width
  {
    if width > 0 {
      DivMod(n, 256);
      LittleEndianRoundTrip(n / 256, width - 1);
      assert LittleEndian(n, width)[1..] == LittleEndian(n / 256, width - 1);
    }
  }

  lemma EightBytesHoldLengths()
    ensures Pow256(8) == U64_MAX + 1
  {
    assert Pow256(4) == 0x1_0000_0000;
    assert Pow256(6) == 256 * (256 * Pow256(4));
    assert Pow256(8) == 256 * (256 * Pow256(6));
  }

  function DelimitedFromLeft(parts: seq<Bytes>): seq<Byte> {
    if parts == [] then [] else Delimited(parts[0]) + DelimitedFromLeft(parts[1..])
  }

  lemma {:induction false} DelimitedEitherWay(parts: seq<Bytes>)
    ensures DelimitedAll(parts) == DelimitedFromLeft(parts)
    decreases |parts|
  {
    hide Delimited;
    if |parts| == 1 {
      assert parts == [parts[0]] && parts[..0] == [] && parts[1..] == [];
    } else if |parts| > 1 {
      var front, last := parts[..|parts| - 1], parts[|parts| - 1];
      DelimitedEitherWay(front);
      DelimitedEitherWay(parts[1..]);
      assert parts[1..][..|parts| - 2] == front[1..];
      DelimitedEitherWay(front[1..]);
    }
  }

  /** Reading one delimited part off the front gives it back and leaves the rest. */
  lemma ReadFirst(part: Bytes, rest: seq<Byte>)
    ensures var bytes := Delimited(part) + rest;
      && |bytes| >= 8
      && FromLittleEndian(bytes[..8]) == |part|
      && bytes[8..8 + |part|] == part
      && bytes[8 + |part|..] == rest
  {
    EightBytesHoldLengths();
    LittleEndianRoundTrip(|part|, 8);
    var bytes := Delimited(part) + rest;
    assert bytes[..8] == LittleEndian(|part|, 8);
  }

  lemma {:induction false} ReadPartsRoundTrip(parts: seq<Bytes>)
    ensures ReadParts(DelimitedFromLeft(parts)) == Some(parts)
  {
    if parts != [] {
      ReadFirst(parts[0], DelimitedFromLeft(parts[1..]));
      ReadPartsRoundTrip(parts[1..]);
      assert parts == [parts[0]] + parts[1..];
    }
  }

  lemma PreimageParts(domain: Bytes, parts: seq<Bytes>)
    ensures Preimage(domain, parts) == PREFIX + DelimitedFromLeft([domain] + parts)
  {
    hide Delimited;
    DelimitedEitherWay(parts);
    var all := [domain] + parts;
    assert all[0] == domain && all[1..] == parts;
  }

  /** The digested string gives back the domain and every part. */
  lemma PreimageRoundTrip(domain: Bytes, parts: seq<Bytes>)
    ensures ReadPreimage(Preimage(domain, parts)) == Some((domain, parts))
  {
    hide Delimited, DelimitedFromLeft, ReadParts, Preimage;
    var all := [domain] + parts;
    PreimageParts(domain, parts);
    ReadPartsRoundTrip(all);
    var rest := DelimitedFromLeft(all);
    assert (PREFIX + rest)[..|PREFIX|] == PREFIX && (PREFIX + rest)[|PREFIX|..] == rest;
    assert all[0] == domain && all[1..] == parts;
  }

  /** Equal digested strings come only from equal domains and equal part lists. */
  lemma PreimageInjective(domain1: Bytes, parts1: seq<Bytes>, domain2: Bytes, parts2: seq<Bytes>)
    requires Preimage(domain1, parts1) == Preimage(domain2, parts2)
    ensures domain1 == domain2 && parts1 == parts2
  {
    PreimageRoundTrip(domain1, parts1);
    PreimageRoundTrip(domain2, parts2);
  }
}
