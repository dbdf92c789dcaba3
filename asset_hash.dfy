/** AssetHash: a blake3 digest that the cache file stores as base64 text. */
module AssetHashes {
  import opened Basics
  import opened Assets
  import Base64

  datatype AssetHash = AssetHash(hash: Digest)

  /** `Serialize`: the standard base64 text of the 32 bytes, always 44
      characters long. */
  function Serialize(h: AssetHash): (s: string)
    ensures |s| == 44
  {
    Base64.Encode(h.hash)
  }

  /** `HashVisitor::visit_str`: text that is not canonical base64 is an
      invalid value; base64 of anything but 32 bytes is an invalid length,
      reported with the length of the text. The error reaches the caller of
      the JSON parser as JSONError. */
  function VisitStr(v: string): (r: AssetResult<AssetHash>)
    ensures r.Panicked? == false
    ensures Base64.Decode(v).None? ==> r == Err(JSONError(InvalidValue(v)))
    ensures Base64.Decode(v).Some? && |Base64.Decode(v).value| != 32 ==> r == Err(JSONError(InvalidLength(|v|)))
    ensures r.Ok? ==> Base64.Decode(v).Some? && Base64.Decode(v).value == r.value.hash
  {
    match Base64.Decode(v)
    case None => Err(JSONError(InvalidValue(v)))
    case Some(bytes) =>
      if |bytes| == 32 then Ok(AssetHash(bytes)) else Err(JSONError(InvalidLength(|v|)))
  }

  /** Reading back what was written gives the same hash. */
  lemma HashRoundTrip(h: AssetHash)
    ensures VisitStr(Serialize(h)) == Ok(h)
  {
    Base64.EncodeRoundTrip(h.hash);
  }

  /** The only text accepted for a hash is the text written for it. */
  lemma HashCanonical(v: string, h: AssetHash)
    requires VisitStr(v) == Ok(h)
    ensures Serialize(h) == v
  {
    Base64.DecodeCanonical(v, h.hash);
  }

  /** Hence a text is accepted exactly when it is some hash's serialisation. */
  lemma VisitAcceptsIff(v: string, h: AssetHash)
    ensures VisitStr(v) == Ok(h) <==> Serialize(h) == v
  {
    if Serialize(h) == v {
      HashRoundTrip(h);
    }
    if VisitStr(v) == Ok(h) {
      HashCanonical(v, h);
    }
  }

  /** Texts of the right form but the wrong length are refused by length:
      the encoding of 31 or 33 bytes is not a hash. */
  lemma WrongLengthRefused(b: Bytes)
    requires |b| != 32
    ensures VisitStr(Base64.Encode(b)) == Err(JSONError(InvalidLength(|Base64.Encode(b)|)))
  {
    Base64.EncodeRoundTrip(b);
  }
}
