/**
 * Cache-key derivation of the document pipeline: an MD5 hexdigest over raw
 * file bytes, over UTF-8 encoded text, and over two texts joined by `|`.
 *
 * MD5 itself and UTF-8 encoding are not modelled: every function takes them
 * as parameters. What every lemma may use of MD5 is carried by its type: it
 * maps any byte sequence to a 32-character lower-case hexadecimal string.
 * Lemmas that need more assume it explicitly, for the inputs at hand.
 */
module Hashing {

  newtype Byte = b: int | 0 <= b < 256

  predicate IsLowerHexDigit(c: char) {
    '0' <= c <= '9' || 'a' <= c <= 'f'
  }

  /** The shape of `hashlib.md5(...).hexdigest()`. */
  predicate IsHexDigest(s: string) {
    |s| == 32 && forall i :: 0 <= i < |s| ==> IsLowerHexDigit(s[i])
  }

  type HexDigest = s: string | IsHexDigest(s)
    witness "00000000000000000000000000000000"

  /** An abstract MD5 hexdigest function. */
  type Md5 = seq<Byte> -> HexDigest

  /** An abstract UTF-8 encoder (`str.encode('utf-8')`). */
  type Utf8 = string -> seq<Byte>

  /** The separator that `get_analysis_hash` puts between its two inputs. */
  const Separator: char := '|'

  /** `get_file_hash`: the digest of the raw bytes. */
  function GetFileHash(md5: Md5, fileBytes: seq<Byte>): (r: HexDigest)
    ensures IsHexDigest(r)
  {
    md5(fileBytes)
  }

  /** `get_content_hash`: the digest of the UTF-8 encoding of the text. */
  function GetContentHash(md5: Md5, utf8: Utf8, content: string): (r: HexDigest)
    ensures r == GetFileHash(md5, utf8(content))
  {
    md5(utf8(content))
  }

  /** The f-string `f"{extracted_info}|{kcp_content}"`. */
  function JoinForAnalysis(extractedInfo: string, kcpContent: string): (r: string)
    ensures |r| == |extractedInfo| + 1 + |kcpContent|
    ensures r[..|extractedInfo|] == extractedInfo && r[|extractedInfo|] == Separator
    ensures r[|extractedInfo| + 1..] == kcpContent
  {
    extractedInfo + [Separator] + kcpContent
  }

  /** `get_analysis_hash`: the content hash of the two inputs joined by the separator. */
  function GetAnalysisHash(md5: Md5, utf8: Utf8, extractedInfo: string, kcpContent: string): (r: HexDigest)
    ensures r == GetFileHash(md5, utf8(extractedInfo + "|" + kcpContent))
  {
    GetContentHash(md5, utf8, JoinForAnalysis(extractedInfo, kcpContent))
  }

  ghost predicate Injective<A(!new), B>(f: A -> B) {
    forall x, y :: f(x) == f(y) ==> x == y
  }

  /**
   * MD5 does not collide on these two byte strings. No function from all byte
   * strings to 32 hex characters is injective, so this is assumed only of the
   * inputs a lemma is about.
   */
  predicate NoCollision(md5: Md5, x: seq<Byte>, y: seq<Byte>) {
    md5(x) == md5(y) ==> x == y
  }

  /** Every key has the shape of an MD5 hexdigest. */
  lemma KeysAreHexDigests(md5: Md5, utf8: Utf8, fileBytes: seq<Byte>, content: string, a: string, b: string)
    ensures IsHexDigest(GetFileHash(md5, fileBytes))
    ensures IsHexDigest(GetContentHash(md5, utf8, content))
    ensures IsHexDigest(GetAnalysisHash(md5, utf8, a, b))
  {
  }

  /** A content key is the file key of the encoded text. */
  lemma ContentHashIsFileHashOfEncoding(md5: Md5, utf8: Utf8, content: string)
    ensures GetContentHash(md5, utf8, content) == GetFileHash(md5, utf8(content))
  {
  }

  /** An analysis key is the content key of the joined text. */
  lemma AnalysisHashIsContentHashOfJoin(md5: Md5, utf8: Utf8, a: string, b: string)
    ensures GetAnalysisHash(md5, utf8, a, b) == GetContentHash(md5, utf8, a + "|" + b)
    ensures GetAnalysisHash(md5, utf8, a, b) == GetFileHash(md5, utf8(a + "|" + b))
  {
  }

  /** Equal inputs give equal keys. */
  lemma HashesAreDeterministic(md5: Md5, utf8: Utf8, x: seq<Byte>, y: seq<Byte>, s: string, t: string,
                               a: string, b: string, c: string, d: string)
    requires x == y && s == t && a == c && b == d
    ensures GetFileHash(md5, x) == GetFileHash(md5, y)
    ensures GetContentHash(md5, utf8, s) == GetContentHash(md5, utf8, t)
    ensures GetAnalysisHash(md5, utf8, a, b) == GetAnalysisHash(md5, utf8, c, d)
  {
  }

  /** Two pairs whose joined strings coincide share their analysis key, whatever MD5 is. */
  lemma EqualJoinsCollide(md5: Md5, utf8: Utf8, a: string, b: string, c: string, d: string)
    requires JoinForAnalysis(a, b) == JoinForAnalysis(c, d)
    ensures GetAnalysisHash(md5, utf8, a, b) == GetAnalysisHash(md5, utf8, c, d)
  {
  }

  /** The separator may occur in the content: ("a|b", "c") and ("a", "b|c") are different pairs with one key. */
  lemma SeparatorInContentCollides(md5: Md5, utf8: Utf8)
    ensures ("a|b", "c") != ("a", "b|c")
    ensures GetAnalysisHash(md5, utf8, "a|b", "c") == GetAnalysisHash(md5, utf8, "a", "b|c")
  {
    assert JoinForAnalysis("a|b", "c") == "a|b|c" == JoinForAnalysis("a", "b|c");
  }

  /** When the first input holds no separator, the joined string determines both inputs. */
  lemma {:induction false} JoinInjectiveWithoutSeparator(a: string, b: string, c: string, d: string)
    requires Separator !in a && Separator !in c
    requires JoinForAnalysis(a, b) == JoinForAnalysis(c, d)
    ensures a == c && b == d
  {
    var j := JoinForAnalysis(a, b);
    if |a| != |c| {
      assert false;
    }
    assert a == j[..|a|] == c;
    assert b == j[|a| + 1..] == d;
  }

  /**
   * With an injective encoder, and MD5 free of collisions on the two encoded
   * joins, two analysis keys agree exactly when the joined strings agree; so
   * the only collisions the key construction adds to MD5's own are those of
   * the join.
   */
  lemma AnalysisKeysAgreeIffJoinsAgree(md5: Md5, utf8: Utf8, a: string, b: string, c: string, d: string)
    requires Injective(utf8)
    requires NoCollision(md5, utf8(JoinForAnalysis(a, b)), utf8(JoinForAnalysis(c, d)))
    ensures GetAnalysisHash(md5, utf8, a, b) == GetAnalysisHash(md5, utf8, c, d)
        <==> JoinForAnalysis(a, b) == JoinForAnalysis(c, d)
  {
    if GetAnalysisHash(md5, utf8, a, b) == GetAnalysisHash(md5, utf8, c, d) {
      assert utf8(JoinForAnalysis(a, b)) == utf8(JoinForAnalysis(c, d));
    }
  }

  /** Under the same assumptions, pairs whose first inputs hold no separator never collide. */
  lemma AnalysisKeysSeparateClean(md5: Md5, utf8: Utf8, a: string, b: string, c: string, d: string)
    requires Injective(utf8)
    requires NoCollision(md5, utf8(JoinForAnalysis(a, b)), utf8(JoinForAnalysis(c, d)))
    requires Separator !in a && Separator !in c
    ensures GetAnalysisHash(md5, utf8, a, b) == GetAnalysisHash(md5, utf8, c, d) <==> a == c && b == d
  {
    AnalysisKeysAgreeIffJoinsAgree(md5, utf8, a, b, c, d);
    if JoinForAnalysis(a, b) == JoinForAnalysis(c, d) {
      JoinInjectiveWithoutSeparator(a, b, c, d);
    }
  }

  /** ("ab", "c") and ("a", "bc") join to "ab|c" and "a|bc", so their keys differ under the same assumptions. */
  lemma ShiftedSplitDoesNotCollide(md5: Md5, utf8: Utf8)
    requires Injective(utf8)
    requires NoCollision(md5, utf8(JoinForAnalysis("ab", "c")), utf8(JoinForAnalysis("a", "bc")))
    ensures GetAnalysisHash(md5, utf8, "ab", "c") != GetAnalysisHash(md5, utf8, "a", "bc")
  {
    assert JoinForAnalysis("ab", "c")[1] == 'b' != JoinForAnalysis("a", "bc")[1];
    AnalysisKeysAgreeIffJoinsAgree(md5, utf8, "ab", "c", "a", "bc");
  }
}
