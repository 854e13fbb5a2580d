/** The voice-command dispatcher: a recognised phrase is lower-cased and mapped
    to one browser action by substring tests tried in a fixed order; the first
    test that matches wins. */
module Voice {
  import opened Strings

  datatype VoiceCommand =
    | GoTo(target: string)
    | Refresh
    | Back
    | Forward
    | ZoomIn
    | ZoomOut
    | ReadAloud
    | Summarize
    | Unrecognized

  /** The phrases tested, in the order they are tried. */
  const Keywords: seq<string> :=
    ["go to", "refresh", "back", "forward", "zoom in", "zoom out", "read aloud", "summarize"]

  /** The position of a command's phrase in `Keywords`; `Unrecognized` comes last. */
  function Rank(c: VoiceCommand): (k: nat)
    ensures k <= |Keywords|
  {
    match c
    case GoTo(_) => 0
    case Refresh => 1
    case Back => 2
    case Forward => 3
    case ZoomIn => 4
    case ZoomOut => 5
    case ReadAloud => 6
    case Summarize => 7
    case Unrecognized => 8
  }

  /** The action chosen for `command`: the phrases are tried in order on the
      lower-cased command and the first one it contains wins. */
  function Classify(command: string): VoiceCommand
  {
    var lower := Lower(command);
    if Contains(lower, "go to") then GoTo(Strip(RemoveAll(lower, "go to")))
    else if Contains(lower, "refresh") then Refresh
    else if Contains(lower, "back") then Back
    else if Contains(lower, "forward") then Forward
    else if Contains(lower, "zoom in") then ZoomIn
    else if Contains(lower, "zoom out") then ZoomOut
    else if Contains(lower, "read aloud") then ReadAloud
    else if Contains(lower, "summarize") then Summarize
    else Unrecognized
  }

  /** First match wins: the phrase of the chosen action occurs in the lower-cased
      command and no earlier phrase does. A "go to" target is the lower-cased
      command with every "go to" removed in one pass, then stripped. */
  lemma ClassifyFirstMatch(command: string)
    ensures Rank(Classify(command)) < |Keywords| ==>
              Contains(Lower(command), Keywords[Rank(Classify(command))])
    ensures forall j :: 0 <= j < Rank(Classify(command)) ==> !Contains(Lower(command), Keywords[j])
    ensures Classify(command).GoTo? ==>
              Classify(command).target == Strip(RemoveAll(Lower(command), "go to"))
  {
  }

  /** A command is unrecognised exactly when it holds none of the phrases. */
  lemma UnrecognizedIffNoKeyword(command: string)
    ensures Classify(command) == Unrecognized <==>
            forall j :: 0 <= j < |Keywords| ==> !Contains(Lower(command), Keywords[j])
  {
    var r := Classify(command);
    ClassifyFirstMatch(command);
    if r != Unrecognized {
      assert Rank(r) < |Keywords|;
    }
  }

  /** Matching ignores letter case. */
  lemma ClassifyIgnoresCase(command: string)
    ensures Classify(Lower(command)) == Classify(command)
  {
    LowerIdempotent(command);
  }

  /** A command that starts with "go to" navigates to the rest of the phrase,
      lower-cased and stripped, provided the rest does not say "go to" again. */
  lemma GoToTakesRest(rest: string)
    requires !Contains(Lower(rest), "go to")
    ensures Classify("go to " + rest) == GoTo(Strip(Lower(rest)))
  {
    var lr := Lower(rest);
    LowerOfGoTo([], rest);
    assert [] + "go to " + rest == "go to " + rest;
    var lower := "go to " + lr;
    assert Lower("go to " + rest) == lower;
    assert StartsWith(lower, "go to");
    assert Contains(lower, "go to");
    RemoveLeadingGoTo(lr);
    assert Strip(RemoveAll(lower, "go to")) == Strip([' '] + lr);
    StripSkipsLeadingSpace(' ', lr);
  }

  /** "go to" anywhere wins over the other phrases, and the words said before it
      stay in the target: only the phrase itself is cut out. */
  lemma GoToKeepsWordsBefore(before: string, rest: string)
    requires 'g' !in Lower(before)
    requires !Contains(Lower(rest), "go to")
    ensures Classify(before + "go to " + rest) == GoTo(Strip(Lower(before) + " " + Lower(rest)))
  {
    var lb, lr := Lower(before), Lower(rest);
    LowerOfGoTo(before, rest);
    var lower := lb + "go to " + lr;
    assert OccursAt(lower, "go to", |lb|);
    ContainsIffOccurs(lower, "go to");
    assert lower == lb + ("go to " + lr);
    RemoveAllKeepsPrefix(lb, "go to " + lr, "go to");
    RemoveLeadingGoTo(lr);
    assert RemoveAll(lower, "go to") == lb + " " + lr;
  }

  /** In general the first "go to" is cut out, the words before it stay, and
      every later "go to" is removed from the rest as well. */
  lemma GoToFirstOccurrence(before: string, rest: string)
    requires forall i :: 0 <= i < |Lower(before)| ==>
               !OccursAt(Lower(before) + "go to " + Lower(rest), "go to", i)
    ensures Classify(before + "go to " + rest) ==
            GoTo(Strip(Lower(before) + " " + RemoveAll(Lower(rest), "go to")))
  {
    var lb, lr := Lower(before), Lower(rest);
    LowerOfGoTo(before, rest);
    var lower := lb + "go to " + lr;
    assert OccursAt(lower, "go to", |lb|);
    ContainsIffOccurs(lower, "go to");
    RemoveFirstGoTo(lb, lr);
  }

  /** The removal pass on "go to" after words that do not hold it. */
  lemma RemoveFirstGoTo(lb: string, lr: string)
    requires forall i :: 0 <= i < |lb| ==> !OccursAt(lb + "go to " + lr, "go to", i)
    ensures RemoveAll(lb + "go to " + lr, "go to") == lb + " " + RemoveAll(lr, "go to")
  {
    assert lb + "go to " + lr == lb + "go to" + (" " + lr);
    RemoveAllFirst(lb, " " + lr, "go to");
    RemoveAllKeepsPrefix(" ", lr, "go to");
    assert " " + lr == [' '] + lr;
  }

  /** Lower-casing leaves the phrase "go to " alone. */
  lemma LowerOfGoTo(before: string, rest: string)
    ensures Lower(before + "go to " + rest) == Lower(before) + "go to " + Lower(rest)
  {
    LowerAppend(before + "go to ", rest);
    LowerAppend(before, "go to ");
    assert Lower("go to ") == "go to ";
  }

  /** Removing "go to" from "go to " followed by text without it leaves the space
      and the text. */
  lemma RemoveLeadingGoTo(lr: string)
    requires !Contains(lr, "go to")
    ensures RemoveAll("go to " + lr, "go to") == " " + lr
  {
    assert ("go to " + lr)[..5] == "go to";
    assert ("go to " + lr)[5..] == " " + lr;
    NotStartsWith(" " + lr, "go to", 0);
    assert (" " + lr)[1..] == lr;
  }

  /** The phrase "go to openai dot com" navigates to "openai dot com". */
  lemma GoToExample()
    ensures Classify("go to " + "openai dot com") == GoTo("openai dot com")
  {
    GoToExampleLower();
    GoToExampleNoRepeat();
    GoToExampleStripped();
    GoToTakesRest("openai dot com");
  }

  lemma GoToExampleLower()
    ensures Lower("openai dot com") == "openai dot com"
  {
    LowerOfLowercase("openai dot com");
  }

  lemma GoToExampleNoRepeat()
    ensures !Contains("openai dot com", "go to")
  {
    MissingCharNotContained("openai dot com", "go to", 'g');
  }

  lemma GoToExampleStripped()
    ensures Strip("openai dot com") == "openai dot com"
  {
    StripTrimmed("openai dot com");
  }
}
