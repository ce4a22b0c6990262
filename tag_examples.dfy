/**
 * Worked inputs for the tag scanner, the free text and the Backspace rule,
 * proved from the general lemmas.
 */
module TagExamples {
  import opened JsString
  import opened TagSearch

  /** Every tag token holds a colon and a space, so text lacking either has no chips. */
  lemma {:induction false} NoTagsWithout(s: string)
    requires ' ' !in s || ':' !in s
    ensures Tags(s) == []
  {
    forall i, j | 0 <= i <= j <= |s|
      ensures !IsTagToken(s[i..j])
    {
      assert s[i..j] == [] || (s[i..j][0] in s && s[i..j][|s[i..j]| - 1] in s);
    }
    TagsEmptyIff(s);
  }

  /** Dropping the first token from the front of a text leaves the rest. */
  lemma {:induction false} StripFront(t: string, r: string)
    requires IsTagToken(t)
    ensures ReplaceFirst(t + r, t, "") == r
  {
    assert OccursAt(t + r, t, 0);
    assert IsFirstOccurrence(t + r, t, 0);
    assert (t + r)[|t|..] == r;
  }

  const Alpha: string := "tag:alpha "
  const Beta: string := "tag:beta "
  const TwoTags: string := "tag:alpha tag:beta "

  lemma {:induction false} FreeTextOf(s: string)
    requires Tags(s) != []
    ensures FreeText(s) == Trim(StripAll(s, Tags(s)))
  {
  }

  lemma {:induction false} TagsOfTwoTokens(a: string, b: string)
    requires IsTagToken(a) && IsTagToken(b)
    ensures Tags(a + b) == [a, b]
  {
    assert b == b + "";
    TagsAfterToken(a, b);
    TagsAfterToken(b, "");
    NoTagsWithout("");
  }

  lemma {:induction false} StripOne(s: string, t: string)
    ensures StripAll(s, [t]) == ReplaceFirst(s, t, "")
  {
    assert [t][..0] == [];
  }

  lemma {:induction false} StripTwo(s: string, t: string, u: string)
    ensures StripAll(s, [t, u]) == ReplaceFirst(StripAll(s, [t]), u, "")
  {
    assert [t, u][..1] == [t];
  }

  lemma {:induction false} StripTwoTokens(a: string, b: string)
    requires IsTagToken(a) && IsTagToken(b)
    ensures StripAll(a + b, [a, b]) == ""
  {
    StripTwo(a + b, a, b);
    StripOne(a + b, a);
    StripFront(a, b);
    StripWhole(b);
  }

  lemma {:induction false} StripWhole(b: string)
    requires IsTagToken(b)
    ensures ReplaceFirst(b, b, "") == ""
  {
    assert b + "" == b;
    StripFront(b, "");
  }

  /** Two chips and nothing else: the text box is empty. */
  lemma {:induction false} FreeTextOfTwoTokens(a: string, b: string)
    requires IsTagToken(a) && IsTagToken(b)
    ensures Tags(a + b) == [a, b] && FreeText(a + b) == ""
  {
    TagsOfTwoTokens(a, b);
    FreeTextOf(a + b);
    StripTwoTokens(a, b);
    assert Trim("") == "";
  }

  /** One chip followed by text without tokens and with nothing to trim: the box shows that text. */
  lemma {:induction false} FreeTextOfTokenThenText(a: string, r: string)
    requires IsTagToken(a) && Tags(r) == []
    requires r != [] && !IsTrimmable(r[0]) && !IsTrimmable(r[|r| - 1])
    ensures Tags(a + r) == [a] && FreeText(a + r) == r
  {
    TagsAfterToken(a, r);
    FreeTextOf(a + r);
    StripFront(a, r);
    StripOne(a + r, a);
    TrimIdentity(r);
  }

  const BetaWord: string := "tag:beta"

  lemma {:induction false} ExampleTokens()
    ensures IsTagToken(Alpha) && IsTagToken(Beta)
    ensures TwoTags == Alpha + Beta
    ensures TwoTags[..|TwoTags| - 1] == Alpha + BetaWord
  {
    AllWordCharsIn(Alpha, 4, |Alpha| - 1);
    AllWordCharsIn(Beta, 4, |Beta| - 1);
  }

  lemma {:induction false} BetaWordIsText()
    ensures Tags(BetaWord) == []
    ensures BetaWord != [] && !IsTrimmable(BetaWord[0]) && !IsTrimmable(BetaWord[|BetaWord| - 1])
  {
    assert forall k :: 0 <= k < |BetaWord| ==> BetaWord[k] != ' ';
    NoTagsWithout(BetaWord);
  }

  /**
   * Two chips and an empty text box: Backspace drops the final space of
   * the raw text, so the second token stops matching and comes back as
   * free text, while the first chip stays.
   */
  lemma {:induction false} BackspaceAfterTwoTags()
    ensures Tags(TwoTags) == [Alpha, Beta] && FreeText(TwoTags) == ""
    ensures Tags(TwoTags[..|TwoTags| - 1]) == [Alpha]
    ensures FreeText(TwoTags[..|TwoTags| - 1]) == BetaWord
  {
    ExampleTokens();
    FreeTextOfTwoTokens(Alpha, Beta);
    BetaWordIsText();
    FreeTextOfTokenThenText(Alpha, BetaWord);
  }

  /** A text holding exactly one tag shows one chip, with that tag's label. */
  lemma {:induction false} SingleChip(s: string, t: string)
    requires Tags(s) == [t]
    ensures ChipLabels(s) == [Label(t)]
  {
  }

  lemma {:induction false} AlphaLabel()
    ensures Label(Alpha) == "alpha "
  {
    ReplacePrefix(Alpha);
    assert Alpha[|TagPrefix|..] == "alpha ";
  }

  /** The chip left after that Backspace is labelled with the first tag's name and its space. */
  lemma {:induction false} BackspaceAfterTwoTagsLabels()
    ensures ChipLabels(TwoTags[..|TwoTags| - 1]) == ["alpha "]
  {
    BackspaceAfterTwoTags();
    SingleChip(TwoTags[..|TwoTags| - 1], Alpha);
    AlphaLabel();
  }

  /** Positions where no token starts add nothing to the tags of what follows them. */
  lemma {:induction false} ScanPastUnmatched(s: string, i: nat, k: nat)
    requires i <= k <= |s|
    requires forall q :: i <= q < k ==> MatchAt(s, q).None?
    ensures Scan(s, i) == Scan(s, k)
    decreases k - i
  {
    if i < k {
      ScanPastUnmatched(s, i + 1, k);
    }
  }

  lemma {:induction false} TagsAfterUnmatched(p: string, r: string)
    requires forall q :: 0 <= q < |p| ==> MatchAt(p + r, q).None?
    ensures Tags(p + r) == Tags(r)
  {
    ScanPastUnmatched(p + r, 0, |p|);
    ScanShift(p, r, 0);
    TokensShifted(Scan(r, 0), |p|);
  }

  const Nested: string := "tag:tag:x yy z"
  const Inner: string := "tag:x "
  const Revealed: string := "tag:yy z"

  lemma {:induction false} NestedHasNoTokenAtStart()
    ensures forall q :: 0 <= q < |TagPrefix| ==> MatchAt(Nested, q).None?
  {
    assert WordRun(Nested, 7) == 0;
    assert WordRun(Nested, 4) == 3;
  }

  lemma {:induction false} NestedParts()
    ensures Nested == TagPrefix + (Inner + "yy z")
    ensures IsTagToken(Inner)
  {
  }

  lemma {:induction false} NestedDropsPrefix()
    ensures Tags(Nested) == Tags(Inner + "yy z")
  {
    NestedHasNoTokenAtStart();
    NestedParts();
    TagsAfterUnmatched(TagPrefix, Inner + "yy z");
  }

  lemma {:induction false} InnerTags()
    ensures Tags(Inner + "yy z") == [Inner]
  {
    NestedParts();
    TagsAfterToken(Inner, "yy z");
    NoTagsWithout("yy z");
  }

  lemma {:induction false} NestedTags()
    ensures Tags(Nested) == [Inner]
  {
    NestedDropsPrefix();
    InnerTags();
  }

  lemma {:induction false} NestedStripped()
    ensures StripAll(Nested, [Inner]) == Revealed
  {
    assert [Inner][..0] == [];
    assert OccursAt(Nested, Inner, 4);
    forall k | 0 <= k < 4
      ensures !OccursAt(Nested, Inner, k)
    {
      assert Nested[k + 4] != Inner[4];
    }
    assert IsFirstOccurrence(Nested, Inner, 4);
    assert Nested[..4] + "" + Nested[4 + |Inner|..] == Revealed;
  }

  lemma {:induction false} RevealedParts()
    ensures Revealed == "tag:yy " + "z"
    ensures IsTagToken("tag:yy ")
    ensures !IsTrimmable(Revealed[0]) && !IsTrimmable(Revealed[|Revealed| - 1])
  {
  }

  lemma {:induction false} RevealedTrimmed()
    ensures Trim(Revealed) == Revealed
  {
    RevealedParts();
    TrimIdentity(Revealed);
  }

  lemma {:induction false} RevealedTags()
    ensures Tags(Revealed) == ["tag:yy "]
  {
    RevealedParts();
    TagsAfterToken("tag:yy ", "z");
    NoTagsWithout("z");
  }

  /** The free text is the stripped text once the tags and the stripping are known. */
  lemma {:induction false} FreeTextFrom(s: string, ts: seq<string>, r: string)
    requires Tags(s) == ts && ts != []
    requires StripAll(s, ts) == r && Trim(r) == r
    ensures FreeText(s) == r
  {
  }

  /**
   * Stripping the tags out of the search text is not idempotent: the one
   * tag of `"tag:tag:x yy z"` is `"tag:x "`, and removing it leaves the
   * text box showing `"tag:yy z"`, which itself holds the tag `"tag:yy "`.
   */
  lemma {:induction false} StrippingRevealsTag()
    ensures Tags(Nested) == [Inner]
    ensures FreeText(Nested) == Revealed
    ensures Tags(FreeText(Nested)) == ["tag:yy "]
  {
    NestedTags();
    NestedStripped();
    RevealedTrimmed();
    FreeTextFrom(Nested, [Inner], Revealed);
    RevealedTags();
  }
}
