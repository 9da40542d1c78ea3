/**
  The two identity checks run at registration (app_pemira.py):
  the KRS (study plan) document check, a substring test over the text that a
  PDF library extracted from the document's pages, and the selfie check, which
  asks a face detector how many face regions it found.  PDF parsing and face
  detection are outside the model: the page texts arrive as a value and the
  detector is a function parameter.
*/
module Verification {

  import opened Wrappers

  /** Raw image bytes as uploaded from the camera widget. */
  type Image = seq<bv8>

  /** The ASCII letters that upper-casing changes. */
  predicate IsLower(c: char) { 'a' <= c <= 'z' }

  predicate IsLetter(c: char) { 'a' <= c <= 'z' || 'A' <= c <= 'Z' }

  /** Python's str.upper on one character, restricted to ASCII. */
  function UpperChar(c: char): char
  {
    if IsLower(c) then (c as int - 32) as char else c
  }

  /** Python's str.upper, character by character. */
  function Upper(s: string): string
  {
    seq(|s|, i requires 0 <= i < |s| => UpperChar(s[i]))
  }

  /** "".join(pages): the page texts glued together with no separator. */
  function Join(pages: seq<string>): string
  {
    if pages == [] then "" else pages[0] + Join(pages[1..])
  }

  /** needle occurs in hay starting at position i. */
  predicate OccursAt(needle: string, hay: string, i: nat)
  {
    i + |needle| <= |hay| && hay[i..i + |needle|] == needle
  }

  /** needle is a substring of hay: the meaning of Python's `needle in hay`. */
  ghost predicate Occurs(needle: string, hay: string)
  {
    exists i: nat :: OccursAt(needle, hay, i)
  }

  /** Python's `needle in hay` for strings, computed by scanning hay. */
  function Contains(needle: string, hay: string): (b: bool)
    ensures b <==> Occurs(needle, hay)
    decreases |hay|
  {
    if |needle| <= |hay| && hay[..|needle|] == needle then
      assert OccursAt(needle, hay, 0);
      true
    else if hay == [] then
      false
    else
      var rest := Contains(needle, hay[1..]);
      if rest then
        var j: nat :| OccursAt(needle, hay[1..], j);
        assert hay[j + 1..j + 1 + |needle|] == hay[1..][j..j + |needle|];
        assert OccursAt(needle, hay, j + 1);
        true
      else
        assert forall i: nat :: OccursAt(needle, hay, i) ==> i > 0 && OccursAt(needle, hay[1..], i - 1) by {
          forall i: nat | OccursAt(needle, hay, i)
            ensures i > 0 && OccursAt(needle, hay[1..], i - 1)
          {
            assert i != 0;
            assert hay[1..][i - 1..i - 1 + |needle|] == hay[i..i + |needle|];
          }
        }
        false
  }

  /** The token every valid KRS of this election must carry. */
  const YEAR_TOKEN := "2024"

  /** verify_krs_logic: the upper-cased text of all pages must contain the npm
      exactly as typed, the upper-cased name, and the year token. */
  function VerifyKrs(npm: string, nama: string, pages: seq<string>): (ok: bool)
    ensures ok <==>
      Occurs(npm, Upper(Join(pages))) &&
      Occurs(Upper(nama), Upper(Join(pages))) &&
      Occurs(YEAR_TOKEN, Upper(Join(pages)))
  {
    var text := Upper(Join(pages));
    Contains(npm, text) && Contains(Upper(nama), text) && Contains(YEAR_TOKEN, text)
  }

  /** The npm is compared without upper-casing it, against an upper-cased text,
      so an npm holding a lower-case letter is never found. */
  lemma LowercaseNpmNeverVerifies(npm: string, nama: string, pages: seq<string>, k: nat)
    requires k < |npm| && IsLower(npm[k])
    ensures !VerifyKrs(npm, nama, pages)
  {
  }

  /** At one position, upper-casing the text does not change whether a token
      without letters occurs there. */
  lemma CaseFreeTokenAt(needle: string, hay: string, i: nat)
    requires forall k :: 0 <= k < |needle| ==> !IsLetter(needle[k])
    requires i + |needle| <= |hay|
    ensures OccursAt(needle, Upper(hay), i) <==> OccursAt(needle, hay, i)
  {
  }

  /** For a token with no letters (the year, an all-digit npm), upper-casing the
      document does not change whether the token is found. */
  lemma CaseFreeTokenIgnoresCase(needle: string, hay: string)
    requires forall k :: 0 <= k < |needle| ==> !IsLetter(needle[k])
    ensures Contains(needle, Upper(hay)) <==> Contains(needle, hay)
  {
    forall i: nat | i + |needle| <= |hay|
      ensures OccursAt(needle, Upper(hay), i) <==> OccursAt(needle, hay, i)
    {
      CaseFreeTokenAt(needle, hay, i);
    }
  }

  lemma {:induction false} UpperAppend(a: string, b: string)
    ensures Upper(a + b) == Upper(a) + Upper(b)
  {
  }

  lemma {:induction false} JoinSplit(pages: seq<string>, k: nat)
    requires k < |pages|
    ensures Join(pages) == Join(pages[..k]) + pages[k] + Join(pages[k + 1..])
  {
    if k > 0 {
      JoinSplit(pages[1..], k - 1);
      assert pages[1..][..k - 1] == pages[1..k];
      assert pages[1..][k - 1] == pages[k];
      assert pages[1..][k..] == pages[k + 1..];
      assert pages[..k] == [pages[0]] + pages[1..k];
      assert Join(pages[..k]) == pages[0] + Join(pages[1..k]);
    } else {
      assert pages[k + 1..] == pages[1..];
      assert pages[..k] == [];
    }
  }

  /** A token printed on any single page is found in the whole document. */
  lemma TokenOnOnePageSuffices(token: string, pages: seq<string>, k: nat)
    requires k < |pages|
    requires Contains(token, Upper(pages[k]))
    ensures Contains(token, Upper(Join(pages)))
  {
    var before := Upper(Join(pages[..k]));
    var page := Upper(pages[k]);
    var after := Upper(Join(pages[k + 1..]));
    JoinSplit(pages, k);
    UpperAppend(Join(pages[..k]) + pages[k], Join(pages[k + 1..]));
    UpperAppend(Join(pages[..k]), pages[k]);
    var whole := before + page + after;
    assert Upper(Join(pages)) == whole;
    var i: nat :| OccursAt(token, page, i);
    assert whole[|before| + i..|before| + i + |token|] == page[i..i + |token|];
    assert OccursAt(token, whole, |before| + i);
  }

  /** "".join puts no separator between page texts, so for page texts that
      are arbitrary strings a token may be split across a page break and still
      be found, though no single page carries it. */
  lemma TokenMaySpanPages()
    ensures !Contains(YEAR_TOKEN, Upper("KRS 20")) && !Contains(YEAR_TOKEN, Upper("24"))
    ensures Contains(YEAR_TOKEN, Upper(Join(["KRS 20", "24"])))
  {
    assert Upper("KRS 20") == "KRS 20";
    assert Upper("24") == "24";
    forall i: nat | i + |YEAR_TOKEN| <= |"KRS 20"|
      ensures !OccursAt(YEAR_TOKEN, "KRS 20", i)
    {
      assert "KRS 20"[i] != '2';
      assert "KRS 20"[i..i + |YEAR_TOKEN|][0] == "KRS 20"[i];
    }
    assert Join(["KRS 20", "24"]) == "KRS 2024";
    assert Upper("KRS 2024") == "KRS 2024";
    assert OccursAt(YEAR_TOKEN, "KRS 2024", 4);
  }

  /** When every page text ends with a newline, as the text of an extracted
      PDF page does, the same split year is not found. */
  lemma NewlineEndedPagesDoNotSpan()
    ensures !Contains(YEAR_TOKEN, Upper(Join(["KRS 20\n", "24\n"])))
  {
    var text := "KRS 20\n24\n";
    assert Join(["KRS 20\n", "24\n"]) == text;
    assert Upper(text) == text;
    forall i: nat | i + |YEAR_TOKEN| <= |text|
      ensures !OccursAt(YEAR_TOKEN, text, i)
    {
      var w := text[i..i + |YEAR_TOKEN|];
      assert w[0] == text[i] && w[2] == text[i + 2];
      assert text[i] != '2' || text[i + 2] != '2';
    }
  }

  /** validate_selfie_opencv: (face found?, message). A missing image is
      rejected before the detector runs; otherwise at least one detected
      region is required. */
  function ValidateSelfie(image: Option<Image>, detect: Image -> nat): (r: (bool, string))
    ensures image.None? ==> r == (false, "Face data missing")
    ensures image.Some? ==> (r.0 <==> detect(image.value) > 0)
    ensures r.0 <==> r.1 == "Ok"
  {
    match image
    case None => (false, "Face data missing")
    case Some(bytes) =>
      if detect(bytes) > 0 then (true, "Ok") else (false, "Face not detected")
  }
}
