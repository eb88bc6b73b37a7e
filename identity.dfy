/** Record identity: `generate_id(title, link)`, which both scripts define
    identically as the first ten characters of the MD5 hex digest of
    `title + link`. */
module Identity {

  predicate IsLowerHexChar(c: char)
  {
    ('0' <= c <= '9') || ('a' <= c <= 'f')
  }

  predicate IsLowerHex(s: string)
  {
    forall i :: 0 <= i < |s| ==> IsLowerHexChar(s[i])
  }

  /** What `hashlib.md5(...).hexdigest()` returns: 32 lowercase hex digits. */
  predicate IsHexDigest(d: string)
  {
    |d| == 32 && IsLowerHex(d)
  }

  /** The all-zero digest; it only shows that the type `Md5` is inhabited. */
  const ZeroDigest: string := seq(32, _ => '0')

  /** The MD5 hex digest of a string's encoding. The digest algorithm itself is
      a foreign call; the model keeps only that it is a (deterministic)
      function whose every value is a 32-character lowercase hex string. */
  type Md5 = f: string -> string | forall s :: IsHexDigest(f(s))
    witness (s: string) => ZeroDigest

  /** Key length: `hexdigest()[:10]`. */
  const IdLength: nat := 10

  type Id = string

  /** `generate_id`: the first characters of the digest of the title
      followed by the link. */
  function GenerateId(md5: Md5, title: string, link: string): Id
  {
    md5(title + link)[..IdLength]
  }

  /** The key of a record is a 10-character lowercase hex string and a prefix
      of the digest of the title followed by the link. */
  lemma GenerateIdShape(md5: Md5, title: string, link: string)
    ensures |GenerateId(md5, title, link)| == IdLength && IsLowerHex(GenerateId(md5, title, link))
    ensures GenerateId(md5, title, link) <= md5(title + link)
  {
  }

  /** The key sees only the concatenation `title + link`: two records whose
      title/link boundary falls in different places share a key. */
  lemma ConcatenationShared(md5: Md5, title1: string, link1: string, title2: string, link2: string)
    requires title1 + link1 == title2 + link2
    ensures GenerateId(md5, title1, link1) == GenerateId(md5, title2, link2)
  {
  }

  /** An instance: ("ab", "c") and ("a", "bc") share a key. */
  lemma ConcatenationCollides(md5: Md5)
    ensures GenerateId(md5, "ab", "c") == GenerateId(md5, "a", "bc")
  {
    assert "ab" + "c" == "a" + "bc";
    ConcatenationShared(md5, "ab", "c", "a", "bc");
  }
}
