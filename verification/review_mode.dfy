/**
 * The reviewer persona and its text codec: a fixed lowercase identifier per
 * persona, a display form, and a case-insensitive parser that rejects every
 * other input with a message listing the valid choices.
 */
module ReviewModes {
  import opened RustPrelude
  import opened Text

  datatype ReviewMode = Calm | Informative | Hardcore

  /** The canonical identifier of a persona. */
  function AsStr(m: ReviewMode): (r: string)
    ensures IsLowercase(r)
    ensures |r| > 0
  {
    match m
    case Calm => "calm"
    case Informative => "informative"
    case Hardcore => "hardcore"
  }

  /** Distinct personas have distinct identifiers. */
  lemma AsStrInjective(a: ReviewMode, b: ReviewMode)
    ensures AsStr(a) == AsStr(b) <==> a == b
  {
  }

  /** The human-readable persona description. */
  function Description(m: ReviewMode): (r: string)
    ensures |r| > 0
    ensures r != AsStr(m)
  {
    match m
    case Calm => "Teaching tone, encouraging, suggestive"
    case Informative => "Structured, technical depth, prioritized"
    case Hardcore => "Zero tolerance, aggressive critique, flags anti-patterns"
  }

  /** Each persona has its own description. */
  lemma DescriptionInjective(a: ReviewMode, b: ReviewMode)
    ensures Description(a) == Description(b) <==> a == b
  {
  }

  /** The `Display` text of a persona: its identifier, which parses back. */
  function Display(m: ReviewMode): (r: string)
    ensures r == AsStr(m)
    ensures FromStr(r) == Ok(m)
  {
    RoundTrip(m);
    AsStr(m)
  }

  /** The rejection message for an (already lowercased) input. */
  function UnknownModeMessage(lowered: string): (r: string)
    ensures MessagePrefix <= r
    ensures OccursAt(r, lowered, |MessagePrefix|)
  {
    var r := MessagePrefix + lowered + MessageTail;
    assert r[|MessagePrefix|..|MessagePrefix| + |lowered|] == lowered;
    r
  }

  /** The rejection message up to the echoed input. */
  const MessagePrefix: string := "Unknown review mode: '"

  /** The rejection message after the echoed input: the closing quote and
      the list of valid choices. */
  const MessageTail: string := "'. Choose calm, informative, or hardcore."

  /** Parse a persona from user text, ignoring case. */
  function FromStr(s: string): (r: Result<ReviewMode, string>)
    ensures r.Ok? ==> Lower(s) == AsStr(r.value)
    ensures r.Err? ==> r.error == UnknownModeMessage(Lower(s))
  {
    var lowered := Lower(s);
    if lowered == "calm" then Ok(Calm)
    else if lowered == "informative" then Ok(Informative)
    else if lowered == "hardcore" then Ok(Hardcore)
    else Err(UnknownModeMessage(lowered))
  }

  /** Parsing accepts a text as a persona exactly when its lowercase form
      is that persona's identifier. */
  lemma ParseExactly(s: string, m: ReviewMode)
    ensures FromStr(s) == Ok(m) <==> Lower(s) == AsStr(m)
  {
  }

  /** Every identifier parses back to its persona. */
  lemma RoundTrip(m: ReviewMode)
    ensures FromStr(AsStr(m)) == Ok(m)
  {
  }

  /** Parsing depends only on the lowercase form of its input. */
  lemma CaseInsensitive(s: string)
    ensures FromStr(s) == FromStr(Lower(s))
  {
  }

  /** Messages built around different echoed texts differ. */
  lemma MessageDeterminesEcho(a: string, b: string)
    ensures UnknownModeMessage(a) == UnknownModeMessage(b) <==> a == b
  {
  }

  /** The message tail names each persona's identifier. */
  lemma HintNames(m: ReviewMode)
    ensures Contains(MessageTail, AsStr(m))
  {
    match m
    case Calm =>
      assert MessageTail == "'. Choose " + "calm" + ", informative, or hardcore.";
      ContainsMiddle("'. Choose ", "calm", ", informative, or hardcore.");
    case Informative =>
      assert MessageTail == "'. Choose calm, " + "informative" + ", or hardcore.";
      ContainsMiddle("'. Choose calm, ", "informative", ", or hardcore.");
    case Hardcore =>
      assert MessageTail == "'. Choose calm, informative, or " + "hardcore" + ".";
      ContainsMiddle("'. Choose calm, informative, or ", "hardcore", ".");
  }

  /** The rejection message echoes the text it was built from and names
      every persona's identifier. */
  lemma MessageNamesChoices(lowered: string)
    ensures Contains(UnknownModeMessage(lowered), lowered)
    ensures forall m: ReviewMode :: Contains(UnknownModeMessage(lowered), AsStr(m))
  {
    var head := MessagePrefix + lowered;
    ContainsMiddle(MessagePrefix, lowered, MessageTail);
    forall m: ReviewMode
      ensures Contains(UnknownModeMessage(lowered), AsStr(m))
    {
      HintNames(m);
      ContainsInConcat(head, MessageTail, AsStr(m));
    }
  }

  /** An input whose lowercase form is no identifier is rejected; the message
      echoes the lowercase form, not the original input, and names all three
      choices. */
  lemma Rejection(s: string)
    requires forall m: ReviewMode :: Lower(s) != AsStr(m)
    ensures FromStr(s).Err?
    ensures FromStr(s).error == UnknownModeMessage(Lower(s))
    ensures Contains(FromStr(s).error, Lower(s))
    ensures forall m: ReviewMode :: Contains(FromStr(s).error, AsStr(m))
  {
    assert Lower(s) != AsStr(Calm) && Lower(s) != AsStr(Informative) && Lower(s) != AsStr(Hardcore);
    MessageNamesChoices(Lower(s));
  }

  /** The upper-case spelling of an identifier parses like the identifier. */
  lemma UppercaseAccepted()
    ensures FromStr("HARDCORE") == Ok(Hardcore)
  {
  }

  /** A word that is no identifier is rejected with a message naming the
      choices. */
  lemma UnknownWordRejected()
    ensures FromStr("chill").Err?
    ensures Contains(FromStr("chill").error, "chill")
    ensures Contains(FromStr("chill").error, "calm")
    ensures Contains(FromStr("chill").error, "informative")
    ensures Contains(FromStr("chill").error, "hardcore")
  {
    LowerFixesExactlyLowercase("chill");
    assert Lower("chill") == "chill";
    Rejection("chill");
    assert AsStr(Calm) == "calm";
    assert AsStr(Informative) == "informative";
    assert AsStr(Hardcore) == "hardcore";
  }
}
