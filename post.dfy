/** The validators of Post (server/models.py:38-78). */
module PostValidators {
  import opened Text
  import opened Validation

  const MinContentLength: nat := 250
  const MaxSummaryLength: nat := 250

  /** The category values validate_category allows, in the source's order. */
  const Categories: seq<string> := ["Fiction", "Non-Fiction"]

  /** The phrases validate_title looks for, in the source's order. */
  const ClickbaitPhrases: seq<string> := ["Won't Believe", "Secret", "Top", "Guess"]

  /** validate_content: `not content or len(content) < 250` is rejected. */
  function ValidateContent(content: string): (r: Result<string>)
    ensures r.Ok? <==> |content| >= MinContentLength
    ensures r.Ok? ==> r.value == content
    ensures r.Err? ==> r.error == ContentTooShort
  {
    if |content| == 0 || |content| < MinContentLength then Err(ContentTooShort)
    else Ok(content)
  }

  /** validate_summary: `len(summary) > 250` is rejected; there is no minimum. */
  function ValidateSummary(summary: string): (r: Result<string>)
    ensures r.Ok? <==> |summary| <= MaxSummaryLength
    ensures r.Ok? ==> r.value == summary
    ensures r.Err? ==> r.error == SummaryTooLong
  {
    if |summary| > MaxSummaryLength then Err(SummaryTooLong)
    else Ok(summary)
  }

  /** validate_category: membership in the list of allowed categories. */
  function ValidateCategory(category: string): (r: Result<string>)
    ensures r.Ok? <==> category == "Fiction" || category == "Non-Fiction"
    ensures r.Ok? ==> r.value == category
    ensures r.Err? ==> r.error == BadCategory
  {
    if category !in Categories then Err(BadCategory)
    else Ok(category)
  }

  /** Python's `any(keyword in title for keyword in phrases)`. */
  function AnyPhraseIn(title: string, phrases: seq<string>): (r: bool)
    ensures r ==> |phrases| > 0
  {
    |phrases| > 0 && (Contains(title, phrases[0]) || AnyPhraseIn(title, phrases[1..]))
  }

  /** any() over the phrases is true exactly when some phrase is contained. */
  lemma {:induction false} AnyPhraseInIff(title: string, phrases: seq<string>)
    ensures AnyPhraseIn(title, phrases) <==> exists j :: 0 <= j < |phrases| && Contains(title, phrases[j])
  {
    if |phrases| > 0 {
      var rest := phrases[1..];
      AnyPhraseInIff(title, rest);
      if exists j :: 0 <= j < |phrases| && Contains(title, phrases[j]) {
        var j :| 0 <= j < |phrases| && Contains(title, phrases[j]);
        if j > 0 {
          assert rest[j - 1] == phrases[j];
        }
      }
      if exists j :: 0 <= j < |rest| && Contains(title, rest[j]) {
        var j :| 0 <= j < |rest| && Contains(title, rest[j]);
        assert phrases[j + 1] == rest[j];
      }
    }
  }

  /** validate_title: the title must contain, case-sensitively and as a
      contiguous piece, at least one of the four clickbait phrases. */
  function ValidateTitle(title: string): (r: Result<string>)
    ensures r.Ok? <==>
      || Occurs(title, "Won't Believe")
      || Occurs(title, "Secret")
      || Occurs(title, "Top")
      || Occurs(title, "Guess")
    ensures r.Ok? ==> r.value == title
    ensures r.Err? ==> r.error == NotClickbait
  {
    AnyPhraseInIff(title, ClickbaitPhrases);
    assert ClickbaitPhrases[0] == "Won't Believe" && ClickbaitPhrases[1] == "Secret";
    assert ClickbaitPhrases[2] == "Top" && ClickbaitPhrases[3] == "Guess";
    ContainsIffOccurs(title, "Won't Believe");
    ContainsIffOccurs(title, "Secret");
    ContainsIffOccurs(title, "Top");
    ContainsIffOccurs(title, "Guess");
    if !AnyPhraseIn(title, ClickbaitPhrases) then Err(NotClickbait)
    else Ok(title)
  }

  /** Only a string of exactly 250 characters is both valid content and a
      valid summary. */
  lemma ContentAndSummaryMeetAt250(s: string)
    ensures ValidateContent(s).Ok? && ValidateSummary(s).Ok? <==> |s| == 250
  {
  }

  /** Category matching is exact: case variants are rejected. */
  lemma CategoryIsCaseSensitive()
    ensures ValidateCategory("fiction") == Err(BadCategory)
    ensures ValidateCategory("FICTION") == Err(BadCategory)
    ensures ValidateCategory("Non-fiction") == Err(BadCategory)
    ensures ValidateCategory("Nonfiction") == Err(BadCategory)
  {
  }

  /** A post with title "Top 10 Secrets", category "Fiction", 260 characters
      of content and a 100-character summary passes every validator. */
  lemma ValidPostScenario(content: string, summary: string)
    requires |content| == 260 && |summary| == 100
    ensures ValidateTitle("Top 10 Secrets") == Ok("Top 10 Secrets")
    ensures ValidateCategory("Fiction") == Ok("Fiction")
    ensures ValidateContent(content) == Ok(content)
    ensures ValidateSummary(summary) == Ok(summary)
  {
    assert OccursAt("Top 10 Secrets", "Top", 0);
  }

  /** "A Normal Day" contains none of the phrases, and "top secret guess"
      contains them only in lower case: the match is case-sensitive, so both
      titles are rejected. */
  lemma NonClickbaitTitlesRejected()
    ensures ValidateTitle("A Normal Day") == Err(NotClickbait)
    ensures ValidateTitle("top secret guess") == Err(NotClickbait)
  {
    var plain, lower := "A Normal Day", "top secret guess";
    forall i | 0 <= i < |plain| ensures plain[i] !in {'W', 'S', 'T', 'G'} {
    }
    forall i | 0 <= i < |lower| ensures lower[i] !in {'W', 'S', 'T', 'G'} {
    }
    RejectedWhenNoPhraseStarts(plain);
    RejectedWhenNoPhraseStarts(lower);
  }

  /** A title in which none of 'W', 'S', 'T', 'G' appears is rejected. */
  lemma RejectedWhenNoPhraseStarts(title: string)
    requires forall i :: 0 <= i < |title| ==> title[i] !in {'W', 'S', 'T', 'G'}
    ensures ValidateTitle(title) == Err(NotClickbait)
  {
    FirstCharAbsent(title, "Won't Believe");
    FirstCharAbsent(title, "Secret");
    FirstCharAbsent(title, "Top");
    FirstCharAbsent(title, "Guess");
    ContainsIffOccurs(title, "Won't Believe");
    ContainsIffOccurs(title, "Secret");
    ContainsIffOccurs(title, "Top");
    ContainsIffOccurs(title, "Guess");
  }
}
