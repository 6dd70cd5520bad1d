/** The title normalisation every parser applies to the film names it finds. */
module Titles {
  import opened Text

  /**
    `title.strip().title()`: the surrounding whitespace goes and every word
    starts with a capital. Only the case of letters changes.
  */
  function NormalizeTitle(title: string): (r: string)
    ensures |r| == |Strip(title)|
  {
    Title(Strip(title))
  }

  /** Only the case of letters changes: the title agrees with its stripped source once both are lower-cased. */
  lemma NormalizeTitleLetters(title: string)
    ensures Lower(NormalizeTitle(title)) == Lower(Strip(title))
  {
    LowerOfTitle(Strip(title));
  }

  /** Changing the case of a character never turns it into whitespace or back. */
  lemma CaseKeepsSpace(c: char)
    ensures IsSpace(UpperChar(c)) == IsSpace(c)
    ensures IsSpace(LowerChar(c)) == IsSpace(c)
  {
  }

  /** Normalising an already normalised title changes nothing. */
  lemma NormalizeTitleIdempotent(title: string)
    ensures NormalizeTitle(NormalizeTitle(title)) == NormalizeTitle(title)
  {
    var s := Strip(title);
    TitleOfStripped(s);
    TitleIdempotent(s);
  }

  /** Title-casing text with no surrounding whitespace adds none. */
  lemma TitleOfStripped(s: string)
    requires s == [] || (!IsSpace(s[0]) && !IsSpace(s[|s| - 1]))
    ensures Strip(Title(s)) == Title(s)
  {
    var r := Title(s);
    if r != [] {
      CaseKeepsSpace(s[0]);
      CaseKeepsSpace(s[|s| - 1]);
      assert r[0] == UpperChar(s[0]);
      assert r[|r| - 1] == UpperChar(s[|s| - 1]) || r[|r| - 1] == LowerChar(s[|s| - 1]);
    }
    StripUnchanged(r);
  }

  /** A normalised title starts with a capital: its first character is upper-cased. */
  lemma NormalizeTitleFirstUpper(title: string)
    requires Strip(title) != []
    ensures NormalizeTitle(title)[0] == UpperChar(Strip(title)[0])
    ensures NormalizeTitle(title)[0] == UpperChar(NormalizeTitle(title)[0])
  {
    CaseChar(Strip(title)[0]);
  }

  /** Titles that differ only in the case of letters and in padding normalise to the same text. */
  lemma NormalizeTitleIgnoresCase(a: string, b: string)
    requires Lower(Strip(a)) == Lower(Strip(b))
    ensures NormalizeTitle(a) == NormalizeTitle(b)
  {
    var s, t := Strip(a), Strip(b);
    assert |s| == |t| by {
      assert |Lower(s)| == |s| && |Lower(t)| == |t|;
    }
    forall i | 0 <= i < |s|
      ensures Title(s)[i] == Title(t)[i]
    {
      assert LowerChar(s[i]) == Lower(s)[i] == Lower(t)[i] == LowerChar(t[i]);
      CaseChar(s[i]);
      CaseChar(t[i]);
      if i > 0 {
        assert LowerChar(s[i - 1]) == Lower(s)[i - 1] == Lower(t)[i - 1] == LowerChar(t[i - 1]);
        CaseChar(s[i - 1]);
        CaseChar(t[i - 1]);
      }
    }
  }

  /** Padding around a title does not change its normal form. */
  lemma NormalizeTitleIgnoresPadding(title: string)
    ensures NormalizeTitle(Strip(title)) == NormalizeTitle(title)
  {
    StripIdempotent(title);
  }
}
