/** Model of Services/InMemoryETagStore.cs: a process-wide dictionary from
    resource URI to entity tag, and the tag of a resource, the upper-case hex
    spelling of the SHA-512 digest of its UTF-8 JSON serialisation. JSON
    serialisation, UTF-8 encoding and SHA-512 are inputs. */
module InMemoryETagStore {
  import opened Wrappers

  /** A SHA-512 digest: 64 bytes. */
  type Digest = s: seq<byte> | |s| == 64 witness seq(64, _ => 0)

  /** The library calls GenerateETag makes: JsonConvert.SerializeObject,
      Encoding.UTF8.GetBytes and SHA512.HashData. */
  datatype ETagScheme<!R> = ETagScheme(
    serialize: R -> string,
    utf8: string -> seq<byte>,
    sha512: seq<byte> -> Digest)

  const HexDigits: string := "0123456789ABCDEF"

  /** The hex digit of a value below 16, as Convert.ToHexString writes it. */
  function HexChar(n: nat): (c: char)
    requires n < 16
    ensures c in HexDigits
  {
    if n < 10 then ('0' as int + n) as char else ('A' as int + n - 10) as char
  }

  /** The value of an upper-case hex digit. */
  function HexValue(c: char): (r: Option<nat>)
    ensures r.Some? ==> r.value < 16 && HexChar(r.value) == c
  {
    if '0' <= c <= '9' then Some(c as int - '0' as int)
    else if 'A' <= c <= 'F' then Some(c as int - 'A' as int + 10)
    else None
  }

  /** The two digits of one byte, high nibble first. */
  function HexPair(x: byte): (r: string)
    ensures |r| == 2 && r[0] in HexDigits && r[1] in HexDigits
  {
    [HexChar(x as int / 16), HexChar(x as int % 16)]
  }

  /** Convert.ToHexString: two upper-case digits per byte, high nibble first. */
  function ToHexString(bytes: seq<byte>): (r: string)
    ensures |r| == 2 * |bytes|
    ensures forall i :: 0 <= i < |r| ==> r[i] in HexDigits
  {
    if bytes == [] then ""
    else
      HexPair(bytes[0]) + ToHexString(bytes[1..])
  }

  /** The inverse spelling: pairs of upper-case hex digits back to bytes. */
  function FromHexString(s: string): Option<seq<byte>>
  {
    if s == "" then Some([])
    else if |s| == 1 then None
    else match (HexValue(s[0]), HexValue(s[1]), FromHexString(s[2..]))
      case (Some(hi), Some(lo), Some(rest)) => Some([(hi * 16 + lo) as byte] + rest)
      case _ => None
  }

  /** A hex digit reads back as its value. */
  lemma DigitRoundTrip(n: nat)
    requires n < 16
    ensures HexValue(HexChar(n)) == Some(n)
  {
  }

  /** The two digits of a byte, in front of a readable spelling, read back as that byte. */
  lemma PairRoundTrip(x: byte, t: string, rest: seq<byte>)
    requires FromHexString(t) == Some(rest)
    ensures FromHexString(HexPair(x) + t) == Some([x] + rest)
  {
    var b := x as int;
    var s := HexPair(x) + t;
    assert s[0] == HexChar(b / 16) && s[1] == HexChar(b % 16) && s[2..] == t;
    DigitRoundTrip(b / 16);
    DigitRoundTrip(b % 16);
    assert (b / 16) * 16 + b % 16 == b;
  }

  /** One byte in front: if the rest reads back, so does the whole. */
  lemma HexStep(x: byte, rest: seq<byte>)
    requires FromHexString(ToHexString(rest)) == Some(rest)
    ensures FromHexString(ToHexString([x] + rest)) == Some([x] + rest)
  {
    var bytes := [x] + rest;
    assert bytes[0] == x && bytes[1..] == rest;
    PairRoundTrip(x, ToHexString(rest), rest);
  }

  /** Reading the hex spelling of a byte string gives the bytes back. */
  lemma {:induction false} HexRoundTrip(bytes: seq<byte>)
    ensures FromHexString(ToHexString(bytes)) == Some(bytes)
  {
    if bytes != [] {
      HexRoundTrip(bytes[1..]);
      HexStep(bytes[0], bytes[1..]);
      assert [bytes[0]] + bytes[1..] == bytes;
    }
  }

  /** Different byte strings have different hex spellings. */
  lemma HexInjective(a: seq<byte>, b: seq<byte>)
    ensures ToHexString(a) == ToHexString(b) ==> a == b
  {
    HexRoundTrip(a);
    HexRoundTrip(b);
  }

  /** GenerateETag(resource): always 128 upper-case hex digits. */
  function GenerateETag<R>(scheme: ETagScheme<R>, resource: R): (etag: string)
    ensures |etag| == 128
    ensures forall i :: 0 <= i < |etag| ==> etag[i] in HexDigits
  {
    ToHexString(scheme.sha512(scheme.utf8(scheme.serialize(resource))))
  }

  /** Two resources get the same tag exactly when their contents have the
      same digest: equal content gives an equal tag, and the hex spelling
      loses nothing of the digest. */
  lemma ETagIsDigest<R>(scheme: ETagScheme<R>, a: R, b: R)
    ensures GenerateETag(scheme, a) == GenerateETag(scheme, b)
            <==> scheme.sha512(scheme.utf8(scheme.serialize(a))) == scheme.sha512(scheme.utf8(scheme.serialize(b)))
  {
    HexInjective(scheme.sha512(scheme.utf8(scheme.serialize(a))), scheme.sha512(scheme.utf8(scheme.serialize(b))));
  }

  /** The tag GetETag reports for a URI: the stored one, or "". */
  function Lookup(etags: map<string, string>, resourceUri: string): string {
    if resourceUri in etags then etags[resourceUri] else ""
  }

  /** The store. */
  class InMemoryETagStore<!R> {
    const scheme: ETagScheme<R>
    var etags: map<string, string>

    constructor (scheme: ETagScheme<R>)
      ensures this.scheme == scheme && etags == map[]
    {
      this.scheme := scheme;
      etags := map[];
    }

    /** GetETag(uri): the stored tag; an unknown URI is recorded with "" and
        "" is returned. An existing entry is never changed. */
    method GetETag(resourceUri: string) returns (etag: string)
      modifies this
      ensures etag == Lookup(old(etags), resourceUri)
      ensures etags == old(etags)[resourceUri := etag]
      ensures resourceUri in old(etags) ==> etags == old(etags)
    {
      if resourceUri !in etags {
        etags := etags[resourceUri := ""];
      }
      etag := etags[resourceUri];
    }

    /** SetETag(uri, resource): the entry for uri becomes the resource's tag,
        whatever was there; no other entry changes. */
    method SetETag(resourceUri: string, resource: R)
      modifies this
      ensures etags == old(etags)[resourceUri := GenerateETag(scheme, resource)]
      ensures Lookup(etags, resourceUri) == GenerateETag(scheme, resource)
    {
      etags := etags[resourceUri := GenerateETag(scheme, resource)];
    }

    /** RemoveETag(uri): no entry for uri afterwards, so GetETag reports "";
        no other entry changes, and removing an absent URI changes nothing. */
    method RemoveETag(resourceUri: string)
      modifies this
      ensures etags == old(etags) - {resourceUri}
      ensures Lookup(etags, resourceUri) == ""
      ensures resourceUri !in old(etags) ==> etags == old(etags)
    {
      etags := etags - {resourceUri};
    }
  }
}
