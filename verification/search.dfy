/** The chat-search tool (codewiki_mcp/tools/search.py): cleaning the
    chat answer, the polling phases that wait for it, the selector probes,
    the submit rule, one attempt's outcome and the retry loop.

    The browser is replaced by observations: what each selector showed at
    each poll, whether each candidate input or button was visible, and what
    the rest of an attempt produced. The clock enters only as the number of
    polls the response deadline leaves room for. */
module Search {
  import opened Wrappers
  import opened Text
  import Config
  import opened Types
  import Parser
  import Helpers
  import Cache
  import RateLimit

  // ----- _clean_response -------------------------------------------------------

  /** Every UI artifact is a non-empty string. */
  lemma ArtifactsNonEmpty()
    ensures forall k :: 0 <= k < |Config.UI_ARTIFACTS| ==> |Config.UI_ARTIFACTS[k]| > 0
  {
  }

  /** The raw answer with each UI artifact deleted in turn. */
  function ArtifactsRemoved(raw: string): (r: string)
    ensures |r| <= |raw|
  {
    ArtifactsNonEmpty();
    RemoveAll(raw, Config.UI_ARTIFACTS)
  }

  /** `[line.strip() for line in lines]`. */
  function StripEach(lines: seq<string>): (r: seq<string>)
    ensures |r| == |lines| && forall k :: 0 <= k < |r| ==> r[k] == Strip(lines[k])
  {
    seq(|lines|, k requires 0 <= k < |lines| => Strip(lines[k]))
  }

  /** The lines after the leading empty ones. */
  function DropLeadingEmpty(lines: seq<string>): (r: seq<string>)
    ensures |r| <= |lines| && r == lines[|lines| - |r|..]
    ensures |r| > 0 ==> r[0] != []
    ensures forall k :: 0 <= k < |lines| - |r| ==> lines[k] == []
    decreases |lines|
  {
    if |lines| > 0 && lines[0] == [] then
      var r := DropLeadingEmpty(lines[1..]);
      assert lines[1..][|lines| - 1 - |r|..] == lines[|lines| - |r|..];
      r
    else lines
  }

  /** The trimmed lines `_clean_response` joins: artifacts deleted, each
      line stripped, leading empty lines dropped. */
  function CleanedLines(raw: string): seq<string> {
    DropLeadingEmpty(StripEach(Split(ArtifactsRemoved(raw), '\n')))
  }

  /** `_clean_response`: the cleaned lines joined by newlines, stripped. */
  function Cleaned(raw: string): (r: string)
    ensures Trimmed(r)
  {
    Strip(Join("\n", CleanedLines(raw)))
  }

  /** The cleaned answer begins with its first non-blank line, trimmed;
      it is empty exactly when every line is blank once the artifacts are
      gone. */
  lemma CleanedStartsWithFirstLine(raw: string)
    ensures var ls := CleanedLines(raw);
      && (|ls| > 0 ==> ls[0] != [] && Trimmed(ls[0]) && ls[0] <= Cleaned(raw))
      && (Cleaned(raw) == [] <==> forall k :: 0 <= k < |Split(ArtifactsRemoved(raw), '\n')| ==>
            Strip(Split(ArtifactsRemoved(raw), '\n')[k]) == [])
  {
    var parts := Split(ArtifactsRemoved(raw), '\n');
    var stripped := StripEach(parts);
    var ls := CleanedLines(raw);
    if |ls| > 0 {
      var first := ls[0];
      assert first == stripped[|stripped| - |ls|];
      JoinStartsWithFirst("\n", ls);
      PrefixSurvivesStrip(first, Join("\n", ls));
      assert Cleaned(raw) != [];
      assert parts[|stripped| - |ls|] in parts;
    } else {
      assert Join("\n", ls) == [];
    }
  }

  /** `_clean_response`, step by step as the source does it. */
  method CleanResponse(raw: string) returns (r: string)
    ensures r == Cleaned(raw)
  {
    ArtifactsNonEmpty();
    var text := raw;
    var i := 0;
    while i < |Config.UI_ARTIFACTS|
      invariant 0 <= i <= |Config.UI_ARTIFACTS|
      invariant RemoveAll(text, Config.UI_ARTIFACTS[i..]) == ArtifactsRemoved(raw)
    {
      assert Config.UI_ARTIFACTS[i..][1..] == Config.UI_ARTIFACTS[i + 1..];
      text := Replace(text, Config.UI_ARTIFACTS[i], "");
      i := i + 1;
    }
    var lines := StripEach(Split(text, '\n'));
    while |lines| > 0 && lines[0] == []
      invariant DropLeadingEmpty(lines) == CleanedLines(raw)
    {
      lines := lines[1..];
    }
    r := Strip(Join("\n", lines));
  }

  // ----- _wait_for_response, phases 2 and 3 ----------------------------------

  /** What a response selector showed at one poll: not visible, an
      exception, or visible with its inner text. */
  datatype Probe = Hidden | Raised | Shown(text: string)

  /** Phase 2's scan of the selectors at poll `poll`: the first visible
      text longer than the threshold; shorter texts and failing probes are
      passed over. */
  function Accepted(sels: seq<string>, observe: (nat, string) -> Probe, poll: nat): (r: Option<string>)
    ensures r.Some? ==> |r.value| > Config.NEW_CONTENT_THRESHOLD_CHARS
    decreases |sels|
  {
    if |sels| == 0 then None
    else
      var p := observe(poll, sels[0]);
      if p.Shown? && |p.text| > Config.NEW_CONTENT_THRESHOLD_CHARS then Some(p.text)
      else Accepted(sels[1..], observe, poll)
  }

  /** The accepted text is one a selector showed; none is accepted exactly
      when no selector shows a long enough text. */
  lemma {:induction false} AcceptedShown(sels: seq<string>, observe: (nat, string) -> Probe, poll: nat)
    ensures var r := Accepted(sels, observe, poll);
      && (r.Some? ==> exists k :: 0 <= k < |sels| && observe(poll, sels[k]) == Shown(r.value))
      && (r.None? <==> forall k :: 0 <= k < |sels| ==>
            !(observe(poll, sels[k]).Shown? && |observe(poll, sels[k]).text| > Config.NEW_CONTENT_THRESHOLD_CHARS))
    decreases |sels|
  {
    if |sels| > 0 {
      var p := observe(poll, sels[0]);
      if !(p.Shown? && |p.text| > Config.NEW_CONTENT_THRESHOLD_CHARS) {
        AcceptedShown(sels[1..], observe, poll);
        assert forall k :: 1 <= k < |sels| ==> sels[k] == sels[1..][k - 1];
      }
    }
  }

  /** Some selector shows a long enough text at poll `j`. */
  predicate Answers(observe: (nat, string) -> Probe, j: nat) {
    Accepted(Config.RESPONSE_ELEMENT_SELECTORS, observe, j).Some?
  }

  /** Phase 2 from poll `i` on, with the deadline before poll `polls`: the
      first poll at which a long enough text shows, if any. That none is
      found only when no poll answers is `FirstAnswerNone`. */
  function FirstAnswer(observe: (nat, string) -> Probe, i: nat, polls: nat): (r: Option<nat>)
    ensures r.Some? ==> i <= r.value < polls && Answers(observe, r.value)
    ensures r.Some? ==> forall j :: i <= j < r.value ==> !Answers(observe, j)
    decreases polls - i
  {
    if i >= polls then None
    else if Answers(observe, i) then Some(i)
    else FirstAnswer(observe, i + 1, polls)
  }

  /** Phase 2 finds nothing exactly when no poll before the deadline
      answers. */
  lemma {:induction false} FirstAnswerNone(observe: (nat, string) -> Probe, i: nat, polls: nat)
    ensures FirstAnswer(observe, i, polls).None? <==> forall j :: i <= j < polls ==> !Answers(observe, j)
    decreases polls - i
  {
    if i < polls && !Answers(observe, i) {
      FirstAnswerNone(observe, i + 1, polls);
    }
  }

  /** One phase-2 round: the selectors tried in order until one shows a
      long enough text. */
  method ScanForContent(observe: (nat, string) -> Probe, poll: nat) returns (found: Option<string>)
    ensures found == Accepted(Config.RESPONSE_ELEMENT_SELECTORS, observe, poll)
  {
    var sels := Config.RESPONSE_ELEMENT_SELECTORS;
    var k := 0;
    while k < |sels|
      invariant 0 <= k <= |sels|
      invariant Accepted(sels, observe, poll) == Accepted(sels[k..], observe, poll)
    {
      assert sels[k..][1..] == sels[k + 1..];
      var p := observe(poll, sels[k]);
      if p.Shown? && |p.text| > Config.NEW_CONTENT_THRESHOLD_CHARS {
        return Some(p.text);
      }
      k := k + 1;
    }
    found := None;
  }

  /** Phase 2 of `_wait_for_response`: poll until some selector shows a
      long enough text or the polls run out. Gives the text ("" when none
      came) and the poll that found it. */
  method WaitForContent(observe: (nat, string) -> Probe, polls: nat) returns (content: string, at: nat)
    ensures match FirstAnswer(observe, 0, polls)
      case None => content == []
      case Some(j) => at == j && Accepted(Config.RESPONSE_ELEMENT_SELECTORS, observe, j) == Some(content)
  {
    var i := 0;
    while i < polls
      invariant 0 <= i <= polls
      invariant FirstAnswer(observe, 0, polls) == FirstAnswer(observe, i, polls)
    {
      var found := ScanForContent(observe, i);
      if found.Some? {
        return found.value, i;
      }
      i := i + 1;
    }
    content, at := [], 0;
  }

  /** Phase 3's scan at one poll: the first visible selector's text,
      whatever its length. */
  function FirstShown(sels: seq<string>, observe: (nat, string) -> Probe, poll: nat): (r: Option<string>)
    decreases |sels|
  {
    if |sels| == 0 then None
    else if observe(poll, sels[0]).Shown? then Some(observe(poll, sels[0]).text)
    else FirstShown(sels[1..], observe, poll)
  }

  /** The text read is one a selector showed; nothing is read exactly when
      no selector is visible. */
  lemma {:induction false} FirstShownShown(sels: seq<string>, observe: (nat, string) -> Probe, poll: nat)
    ensures var r := FirstShown(sels, observe, poll);
      && (r.Some? ==> exists k :: 0 <= k < |sels| && observe(poll, sels[k]) == Shown(r.value))
      && (r.None? <==> forall k :: 0 <= k < |sels| ==> !observe(poll, sels[k]).Shown?)
    decreases |sels|
  {
    if |sels| > 0 && !observe(poll, sels[0]).Shown? {
      FirstShownShown(sels[1..], observe, poll);
      assert forall k :: 1 <= k < |sels| ==> sels[k] == sels[1..][k - 1];
    }
  }

  /** The most rounds phase 3 waits for the text to stop growing. */
  const STABILITY_ROUNDS := 15

  /** The phase-3 round at poll `j` read `t` from the selectors `sels`. */
  predicate ReadAt(sels: seq<string>, observe: (nat, string) -> Probe, j: nat, t: string) {
    FirstShown(sels, observe, j) == Some(t)
  }

  /** The content after one phase-3 round at poll `poll`: the text read, or
      the previous content when no selector was visible. */
  function ReadRound(sels: seq<string>, content: string, observe: (nat, string) -> Probe, poll: nat): (r: string)
    ensures r == content || ReadAt(sels, observe, poll, r)
  {
    match FirstShown(sels, observe, poll)
    case None => content
    case Some(t) => t
  }

  /** Phase 3 from poll `poll`, reading the selectors `sels`, with its last
      possible round at poll `end - 1`: re-read until a round leaves the
      length unchanged. The length compared against is always the length of
      the content going into the round. Gives the final content and the
      poll after the last round done. */
  function StableFrom(sels: seq<string>, content: string, observe: (nat, string) -> Probe, poll: nat, end: nat): (r: (string, nat))
    requires poll <= end
    ensures poll <= r.1 <= end
    ensures poll < end ==> poll < r.1
    decreases end - poll
  {
    if poll == end then (content, poll)
    else
      var c := ReadRound(sels, content, observe, poll);
      if |c| == |content| then (c, poll + 1)
      else StableFrom(sels, c, observe, poll + 1, end)
  }

  /** One unfolding of `StableFrom`. */
  lemma StableStep(sels: seq<string>, content: string, observe: (nat, string) -> Probe, poll: nat, end: nat)
    requires poll < end
    ensures var c := ReadRound(sels, content, observe, poll);
      StableFrom(sels, content, observe, poll, end) ==
        if |c| == |content| then (c, poll + 1) else StableFrom(sels, c, observe, poll + 1, end)
  {
  }

  /** Phase 3 returns phase 2's text or a text some round of it read. */
  lemma {:induction false} StableResultWasRead(sels: seq<string>, content: string, observe: (nat, string) -> Probe,
                                               poll: nat, end: nat)
    requires poll <= end
    ensures var r := StableFrom(sels, content, observe, poll, end);
      r.0 == content || exists j :: poll <= j < r.1 && ReadAt(sels, observe, j, r.0)
    decreases end - poll
  {
    if poll < end {
      var c := ReadRound(sels, content, observe, poll);
      if |c| != |content| {
        StableResultWasRead(sels, c, observe, poll + 1, end);
      }
    }
  }

  /** A round in which no selector is visible ends phase 3 with the
      content unchanged. */
  lemma NothingVisibleStops(sels: seq<string>, content: string, observe: (nat, string) -> Probe, poll: nat, end: nat)
    requires poll < end
    requires forall k :: 0 <= k < |sels| ==> !observe(poll, sels[k]).Shown?
    ensures StableFrom(sels, content, observe, poll, end) == (content, poll + 1)
  {
    FirstShownShown(sels, observe, poll);
  }

  /** A round that reads a text of the same length ends phase 3 with that
      text, even when it differs from the content; a round that reads a
      text of another length goes on to the next round. */
  lemma LengthDecidesStop(sels: seq<string>, content: string, observe: (nat, string) -> Probe, poll: nat, end: nat, t: string)
    requires poll < end
    requires ReadAt(sels, observe, poll, t)
    ensures |t| == |content| ==> StableFrom(sels, content, observe, poll, end) == (t, poll + 1)
    ensures |t| != |content| ==> StableFrom(sels, content, observe, poll, end) == StableFrom(sels, t, observe, poll + 1, end)
  {
  }

  /** A text that grows at every round is read in every remaining round
      and the last read is returned. */
  lemma {:induction false} GrowingTextReadsAllRounds(sels: seq<string>, content: string, observe: (nat, string) -> Probe,
                                                     poll: nat, end: nat, grow: nat -> string)
    requires poll < end
    requires forall j :: poll <= j < end ==> ReadAt(sels, observe, j, grow(j))
    requires forall j :: poll <= j < end ==> |grow(j)| == |content| + j + 1 - poll
    ensures StableFrom(sels, content, observe, poll, end) == (grow(end - 1), end)
    decreases end - poll
  {
    var t := grow(poll);
    StableStep(sels, content, observe, poll, end);
    assert ReadRound(sels, content, observe, poll) == t;
    if poll + 1 < end {
      GrowingTextReadsAllRounds(sels, t, observe, poll + 1, end, grow);
    }
  }

  /** One phase-3 round: the first visible selector's text. */
  method ScanShown(sels: seq<string>, observe: (nat, string) -> Probe, poll: nat) returns (found: Option<string>)
    ensures found == FirstShown(sels, observe, poll)
  {
    var k := 0;
    while k < |sels|
      invariant 0 <= k <= |sels|
      invariant FirstShown(sels, observe, poll) == FirstShown(sels[k..], observe, poll)
    {
      assert sels[k..][1..] == sels[k + 1..];
      var p := observe(poll, sels[k]);
      if p.Shown? {
        return Some(p.text);
      }
      k := k + 1;
    }
    found := None;
  }

  /** Phase 3 of `_wait_for_response`, its rounds at the polls from `from`
      on: the settled text and the poll after the last round. */
  method Stabilise(sels: seq<string>, start: string, observe: (nat, string) -> Probe, from: nat) returns (content: string, next: nat)
    ensures (content, next) == StableFrom(sels, start, observe, from, from + STABILITY_ROUNDS)
  {
    ghost var end := from + STABILITY_ROUNDS;
    ghost var goal := StableFrom(sels, start, observe, from, end);
    content := start;
    var lastLen := |content|;
    var poll := from;
    while poll < from + STABILITY_ROUNDS
      invariant from <= poll <= end
      invariant lastLen == |content|
      invariant goal == StableFrom(sels, content, observe, poll, end)
    {
      StableStep(sels, content, observe, poll, end);
      ghost var before := content;
      var found := ScanShown(sels, observe, poll);
      if found.Some? {
        content := found.value;
      }
      assert content == ReadRound(sels, before, observe, poll);
      poll := poll + 1;
      if |content| == lastLen {
        return content, poll;
      }
      lastLen := |content|;
    }
    next := poll;
  }

  /** `_wait_for_response` after its first phase: "" when phase 2 finds
      nothing before the deadline, otherwise phase 2's text settled by up to
      fifteen phase-3 rounds at the polls after it. */
  function ResponseText(observe: (nat, string) -> Probe, polls: nat): (r: string)
    ensures FirstAnswer(observe, 0, polls).None? ==> r == []
  {
    match FirstAnswer(observe, 0, polls)
    case None => []
    case Some(j) =>
      var content := Accepted(Config.RESPONSE_ELEMENT_SELECTORS, observe, j).value;
      StableFrom(Config.RESPONSE_ELEMENT_SELECTORS, content, observe, j + 1, j + 1 + STABILITY_ROUNDS).0
  }

  /** The response is the text phase 2 accepted or a text a later round
      read; when the page answered at all it is that accepted text if the
      next round reads the same length. */
  lemma ResponseIsRead(observe: (nat, string) -> Probe, polls: nat)
    ensures var r := ResponseText(observe, polls);
      match FirstAnswer(observe, 0, polls)
      case None => r == []
      case Some(j) =>
        || Accepted(Config.RESPONSE_ELEMENT_SELECTORS, observe, j) == Some(r)
        || exists k :: j < k <= j + STABILITY_ROUNDS && ReadAt(Config.RESPONSE_ELEMENT_SELECTORS, observe, k, r)
  {
    match FirstAnswer(observe, 0, polls)
    case None =>
    case Some(j) =>
      var content := Accepted(Config.RESPONSE_ELEMENT_SELECTORS, observe, j).value;
      StableResultWasRead(Config.RESPONSE_ELEMENT_SELECTORS, content, observe, j + 1, j + 1 + STABILITY_ROUNDS);
  }

  /** Phases 2 and 3 of `_wait_for_response`. */
  method WaitForResponse(observe: (nat, string) -> Probe, polls: nat) returns (text: string)
    ensures text == ResponseText(observe, polls)
  {
    var content, at := WaitForContent(observe, polls);
    if content == [] {
      return [];
    }
    var next;
    text, next := Stabilise(Config.RESPONSE_ELEMENT_SELECTORS, content, observe, at + 1);
  }

  // ----- _find_chat_input and _submit_query ----------------------------------

  /** A selector's `is_visible` answer, or the exception it raised. */
  datatype Visibility = Visible | Invisible | ProbeFailed

  /** The first selector reported visible; invisible and failing ones are
      passed over. */
  function FirstVisible(sels: seq<string>, visible: string -> Visibility): (r: Option<nat>)
    ensures r.Some? ==> r.value < |sels| && visible(sels[r.value]) == Visible
    ensures r.Some? ==> forall k :: 0 <= k < r.value ==> visible(sels[k]) != Visible
    ensures r.None? <==> forall k :: 0 <= k < |sels| ==> visible(sels[k]) != Visible
    decreases |sels|
  {
    if |sels| == 0 then None
    else if visible(sels[0]) == Visible then Some(0)
    else
      match FirstVisible(sels[1..], visible)
      case None =>
        assert forall k :: 1 <= k < |sels| ==> sels[k] == sels[1..][k - 1];
        None
      case Some(i) =>
        assert forall k :: 1 <= k < i + 1 ==> sels[k] == sels[1..][k - 1];
        Some(i + 1)
  }

  /** `_find_chat_input`: the selector of the chat input found, if any. */
  method FindChatInput(visible: string -> Visibility) returns (found: Option<string>)
    ensures match FirstVisible(Config.CHAT_INPUT_SELECTORS, visible)
      case None => found.None?
      case Some(k) => found == Some(Config.CHAT_INPUT_SELECTORS[k])
  {
    var sels := Config.CHAT_INPUT_SELECTORS;
    var k := 0;
    while k < |sels|
      invariant 0 <= k <= |sels|
      invariant forall j :: 0 <= j < k ==> visible(sels[j]) != Visible
    {
      if visible(sels[k]) == Visible {
        return Some(sels[k]);
      }
      k := k + 1;
    }
    found := None;
  }

  /** What a send button did when `_submit_query` looked at it: not
      visible, an exception while probing, disabled (Enter was accepted),
      enabled and clicked, or enabled but the click raised. */
  datatype Button = Absent | ProbeError | Disabled | Enabled | ClickRaised

  /** The selectors `_submit_query` clicks after pressing Enter, in order:
      it stops at the first disabled button and after the first click that
      does not raise. */
  function SubmitClicks(sels: seq<string>, button: string -> Button): (r: seq<string>)
    ensures |r| <= |sels|
    decreases |sels|
  {
    if |sels| == 0 then []
    else
      match button(sels[0])
      case Absent => SubmitClicks(sels[1..], button)
      case ProbeError => SubmitClicks(sels[1..], button)
      case Disabled => []
      case Enabled => [sels[0]]
      case ClickRaised => [sels[0]] + SubmitClicks(sels[1..], button)
  }

  /** The clicked buttons are enabled ones, in the list, and every click
      but the last raised. */
  lemma {:induction false} ClicksAreEnabled(sels: seq<string>, button: string -> Button)
    ensures var r := SubmitClicks(sels, button);
      && (forall x :: x in r ==> x in sels && button(x) in {Enabled, ClickRaised})
      && (forall j :: 0 <= j < |r| - 1 ==> button(r[j]) == ClickRaised)
    decreases |sels|
  {
    if |sels| > 0 {
      var b := button(sels[0]);
      if b == Absent || b == ProbeError || b == ClickRaised {
        ClicksAreEnabled(sels[1..], button);
        var rest := SubmitClicks(sels[1..], button);
        forall x | x in rest ensures x in sels {
          var k :| 0 <= k < |sels[1..]| && sels[1..][k] == x;
          assert sels[k + 1] == x;
        }
        if b == ClickRaised {
          assert forall j :: 1 <= j < |[sels[0]] + rest| ==> ([sels[0]] + rest)[j] == rest[j - 1];
        }
      }
    }
  }

  /** One iteration of the button loop: the clicks from `sels[k]` on. */
  lemma ClickStep(sels: seq<string>, button: string -> Button, k: nat)
    requires k < |sels|
    ensures var b := button(sels[k]);
      SubmitClicks(sels[k..], button) ==
        if b == Disabled then []
        else if b == Enabled then [sels[k]]
        else if b == ClickRaised then [sels[k]] + SubmitClicks(sels[k + 1..], button)
        else SubmitClicks(sels[k + 1..], button)
  {
    assert sels[k..][1..] == sels[k + 1..];
  }

  /** Whether the button settles the question: disabled or enabled, the
      click going through. */
  predicate Decisive(b: Button) {
    b == Disabled || b == Enabled
  }

  /** `sels[k]` is the first decisive button. */
  predicate FirstDecisiveAt(sels: seq<string>, button: string -> Button, k: nat)
    requires k < |sels|
  {
    Decisive(button(sels[k])) && forall j :: 0 <= j < k ==> !Decisive(button(sels[j]))
  }

  /** When no click raises, at most one button is clicked: none when the
      first decisive button is disabled (Enter was accepted) or there is
      none, and that button when it is enabled. */
  lemma {:induction false} AtMostOneClick(sels: seq<string>, button: string -> Button)
    requires forall k :: 0 <= k < |sels| ==> button(sels[k]) != ClickRaised
    ensures var r := SubmitClicks(sels, button);
      && |r| <= 1
      && (|r| == 1 <==> exists k :: 0 <= k < |sels| && FirstDecisiveAt(sels, button, k) && button(sels[k]) == Enabled)
    decreases |sels|
  {
    if |sels| > 0 {
      var tail := sels[1..];
      AtMostOneClick(tail, button);
      if !Decisive(button(sels[0])) {
        forall k | 1 <= k < |sels|
          ensures FirstDecisiveAt(sels, button, k) <==> FirstDecisiveAt(tail, button, k - 1)
        {
          assert sels[k] == tail[k - 1];
          assert forall j :: 1 <= j < k ==> sels[j] == tail[j - 1];
        }
        assert !FirstDecisiveAt(sels, button, 0);
        if |SubmitClicks(tail, button)| == 1 {
          var k1 :| 0 <= k1 < |tail| && FirstDecisiveAt(tail, button, k1) && button(tail[k1]) == Enabled;
          assert FirstDecisiveAt(sels, button, k1 + 1) && button(sels[k1 + 1]) == Enabled;
        }
      } else {
        assert FirstDecisiveAt(sels, button, 0);
        forall k | 0 < k < |sels|
          ensures !FirstDecisiveAt(sels, button, k)
        {
        }
      }
    }
  }

  /** The button loop of `_submit_query` over the selectors `sels`. */
  method ClickFirstButton(sels: seq<string>, button: string -> Button) returns (clicked: seq<string>)
    ensures clicked == SubmitClicks(sels, button)
  {
    clicked := [];
    var k := 0;
    ghost var goal := SubmitClicks(sels, button);
    assert sels[0..] == sels;
    while k < |sels|
      invariant 0 <= k <= |sels|
      invariant clicked + SubmitClicks(sels[k..], button) == goal
    {
      ClickStep(sels, button, k);
      var b := button(sels[k]);
      if b == Disabled {
        assert clicked + [] == clicked;
        return;
      } else if b == Enabled {
        clicked := clicked + [sels[k]];
        return;
      } else if b == ClickRaised {
        ghost var rest := SubmitClicks(sels[k + 1..], button);
        assert clicked + ([sels[k]] + rest) == (clicked + [sels[k]]) + rest;
        clicked := clicked + [sels[k]];
      }
      k := k + 1;
    }
    assert sels[k..] == [];
  }

  /** `_submit_query` after Enter: the send buttons clicked. */
  method SubmitQuery(button: string -> Button) returns (clicked: seq<string>)
    ensures clicked == SubmitClicks(Config.SUBMIT_BUTTON_SELECTORS, button)
  {
    clicked := ClickFirstButton(Config.SUBMIT_BUTTON_SELECTORS, button);
  }

  // ----- _search_impl ----------------------------------------------------------

  /** One attempt's response and whether the pooled session is released as
      broken. */
  datatype AttemptResult = AttemptResult(response: ToolResponse, broken: bool)

  /** After the chat input was found: the response text the wait produced,
      or the message of an exception the browser raised while typing,
      submitting or waiting. */
  datatype Interaction = Answered(raw: string) | DriverRaised(message: string)

  function ChatPanelMissingMessage(target: string): string {
    "Chat panel not found or could not be opened on " + target + "."
  }

  function InputMissingMessage(target: string): string {
    "Could not locate chat input on " + target
      + ". CodeWiki may require authentication or the page structure has changed."
  }

  function NoResponseMessage(query: string): string {
    "No response received for query: '" + query + "'."
  }

  /** `_search_impl` on a pooled session: the chat panel must be open and
      an input found; then the answer is cleaned and cut to the budget. Only
      a missing panel, a missing input and a driver exception mark the
      session broken; an empty answer does not. */
  function SearchImpl(inp: SearchInput, s: Config.Settings, chatOpen: bool, inputFound: bool, interaction: Interaction)
    : (r: AttemptResult)
  {
    var target := Helpers.BuildCodewikiUrl(s.baseUrl, inp.repoUrl);
    var url, q := Some(inp.repoUrl), Some(inp.query);
    if !chatOpen then
      AttemptResult(Error(INPUT_NOT_FOUND, ChatPanelMissingMessage(target), url, q, DEFAULT_META), true)
    else if !inputFound then
      AttemptResult(Error(INPUT_NOT_FOUND, InputMissingMessage(target), url, q, DEFAULT_META), true)
    else
      match interaction
      case DriverRaised(exc) =>
        AttemptResult(Error(DRIVER_ERROR, "Playwright error: " + exc, url, q, DEFAULT_META), true)
      case Answered(raw) =>
        if raw == [] then
          AttemptResult(Error(NO_CONTENT, NoResponseMessage(inp.query), url, q, DEFAULT_META), false)
        else
          var t := Helpers.HardTruncate(Cleaned(raw), s.responseMaxChars);
          AttemptResult(Success(t.text, url, q, DEFAULT_META.(truncated := t.truncated)), false)
  }

  /** The session is released as broken exactly on a missing panel, a
      missing input or a driver exception; an empty answer does not break
      it. */
  lemma SearchImplBroken(inp: SearchInput, s: Config.Settings, chatOpen: bool, inputFound: bool, interaction: Interaction)
    ensures var r := SearchImpl(inp, s, chatOpen, inputFound, interaction);
      && (r.broken <==> !chatOpen || !inputFound || interaction.DriverRaised?)
      && r.response.repoUrl == Some(inp.repoUrl) && r.response.query == Some(inp.query)
  {
  }

  /** Each failure of an attempt with its code and message. */
  lemma SearchImplErrors(inp: SearchInput, s: Config.Settings, chatOpen: bool, inputFound: bool, interaction: Interaction)
    ensures var r := SearchImpl(inp, s, chatOpen, inputFound, interaction).response;
      var target := Helpers.BuildCodewikiUrl(s.baseUrl, inp.repoUrl);
      && (!chatOpen ==>
            r.code == Some(INPUT_NOT_FOUND) && r.message == Some(ChatPanelMissingMessage(target)))
      && (chatOpen && !inputFound ==>
            r.code == Some(INPUT_NOT_FOUND) && r.message == Some(InputMissingMessage(target)))
      && (chatOpen && inputFound && interaction.DriverRaised? ==>
            r.code == Some(DRIVER_ERROR) && r.message == Some("Playwright error: " + interaction.message))
      && (chatOpen && inputFound && interaction == Answered([]) ==>
            r.code == Some(NO_CONTENT) && r.message == Some(NoResponseMessage(inp.query)))
  {
  }

  /** An attempt is OK exactly when the panel and input were there and a
      non-empty answer came; its data is then the cleaned answer cut to the
      budget. */
  lemma SearchImplAnswer(inp: SearchInput, s: Config.Settings, chatOpen: bool, inputFound: bool, interaction: Interaction)
    ensures var r := SearchImpl(inp, s, chatOpen, inputFound, interaction).response;
      && (r.status == OK <==> chatOpen && inputFound && interaction.Answered? && interaction.raw != [])
      && (r.status == OK ==>
            var t := Helpers.HardTruncate(Cleaned(interaction.raw), s.responseMaxChars);
            r.data == Some(t.text) && r.meta == ResponseMeta(|t.text|, 1, 1, t.truncated))
  {
  }

  /** A successful answer within the budget is the cleaned text, trimmed
      and starting with its first non-blank line; a cut one is a prefix of
      that text followed by the marker. */
  lemma AnswerIsCleaned(inp: SearchInput, s: Config.Settings, raw: string)
    requires raw != []
    ensures var r := SearchImpl(inp, s, true, true, Answered(raw)).response;
      var c := Cleaned(raw);
      && r.status == OK
      && (|c| <= s.responseMaxChars ==> r.data == Some(c) && Trimmed(c) && !r.meta.truncated)
      && (|c| > s.responseMaxChars >= 0 ==>
            r.meta.truncated && r.data == Some(c[..s.responseMaxChars] + Parser.TRUNCATION_MARKER))
  {
  }

  /** One attempt driven step by step: open panel, find the input, press
      Enter and perhaps click send, wait for the answer, clean it. `raised`
      is the message of an exception the browser raised after the input was
      found. Gives the attempt and the buttons clicked. */
  method SearchAttempt(inp: SearchInput, s: Config.Settings, chatOpen: bool, visible: string -> Visibility,
                       button: string -> Button, observe: (nat, string) -> Probe, polls: nat, raised: Option<string>)
    returns (r: AttemptResult, clicked: seq<string>)
    ensures var found := FirstVisible(Config.CHAT_INPUT_SELECTORS, visible).Some?;
      r == SearchImpl(inp, s, chatOpen, found,
                      if raised.Some? then DriverRaised(raised.value) else Answered(ResponseText(observe, polls)))
    ensures chatOpen && FirstVisible(Config.CHAT_INPUT_SELECTORS, visible).Some? && raised.None? ==>
      clicked == SubmitClicks(Config.SUBMIT_BUTTON_SELECTORS, button)
  {
    var target := Helpers.BuildCodewikiUrl(s.baseUrl, inp.repoUrl);
    var url, q := Some(inp.repoUrl), Some(inp.query);
    clicked := [];
    if !chatOpen {
      return AttemptResult(Error(INPUT_NOT_FOUND, ChatPanelMissingMessage(target), url, q, DEFAULT_META), true), clicked;
    }
    var input := FindChatInput(visible);
    if input.None? {
      return AttemptResult(Error(INPUT_NOT_FOUND, InputMissingMessage(target), url, q, DEFAULT_META), true), clicked;
    }
    if raised.Some? {
      return AttemptResult(Error(DRIVER_ERROR, "Playwright error: " + raised.value, url, q, DEFAULT_META), true), clicked;
    }
    clicked := SubmitQuery(button);
    var responseText := WaitForResponse(observe, polls);
    if responseText == [] {
      return AttemptResult(Error(NO_CONTENT, NoResponseMessage(inp.query), url, q, DEFAULT_META), false), clicked;
    }
    r := AnswerAttempt(inp, s, responseText);
  }

  /** The end of an attempt that produced a response: the response cleaned
      and cut to the budget. */
  method AnswerAttempt(inp: SearchInput, s: Config.Settings, responseText: string) returns (r: AttemptResult)
    requires responseText != []
    ensures r == SearchImpl(inp, s, true, true, Answered(responseText))
  {
    var cleaned := CleanResponse(responseText);
    var truncated := false;
    if |cleaned| > s.responseMaxChars {
      cleaned := PyPrefix(cleaned, s.responseMaxChars) + Parser.TRUNCATION_MARKER;
      truncated := true;
    }
    r := AttemptResult(Success(cleaned, Some(inp.repoUrl), Some(inp.query), DEFAULT_META.(truncated := truncated)), false);
  }

  // ----- _run_search -----------------------------------------------------------

  /** How the browser loop ended an attempt: with its result, by the hard
      timeout, or with another exception. */
  datatype RunOutcome = Completed(result: AttemptResult) | HardTimedOut | Crashed(message: string)

  function SearchTimeoutMessage(hardTimeoutSeconds: int): string {
    "Search timed out after " + IntToString(hardTimeoutSeconds) + "s."
  }

  /** `_run_search`: the attempt's response, or TIMEOUT, or INTERNAL with
      the exception's text. */
  function RunSearch(inp: SearchInput, s: Config.Settings, outcome: RunOutcome): (r: ToolResponse)
    ensures outcome.Completed? ==> r == outcome.result.response
    ensures outcome.HardTimedOut? ==>
      (r.status == ERROR && r.code == Some(TIMEOUT) && r.message == Some(SearchTimeoutMessage(s.hardTimeoutSeconds)))
    ensures outcome.Crashed? ==> r.status == ERROR && r.code == Some(INTERNAL) && r.message == Some(outcome.message)
    ensures !outcome.Completed? ==> r.repoUrl == Some(inp.repoUrl) && r.query == Some(inp.query)
  {
    match outcome
    case Completed(res) => res.response
    case HardTimedOut =>
      Error(TIMEOUT, SearchTimeoutMessage(s.hardTimeoutSeconds), Some(inp.repoUrl), Some(inp.query), DEFAULT_META)
    case Crashed(exc) => Error(INTERNAL, exc, Some(inp.repoUrl), Some(inp.query), DEFAULT_META)
  }

  // ----- the retry loop of codewiki_search_wiki --------------------------------

  /** The response of attempt `a`, given what the browser loop did on
      each attempt. */
  function AttemptResponse(inp: SearchInput, s: Config.Settings, runs: nat -> RunOutcome, a: nat): ToolResponse {
    RunSearch(inp, s, runs(a))
  }

  /** The attempt number and the attempt bound written into a response's
      meta. */
  function Stamp(r: ToolResponse, attempt: int, maxAttempts: int): (t: ToolResponse)
    ensures t.meta.attempt == attempt && t.meta.maxAttempts == maxAttempts
    ensures t.status == r.status && t.code == r.code && t.message == r.message && t.data == r.data
    ensures t.meta.charCount == r.meta.charCount && t.meta.truncated == r.meta.truncated
  {
    r.(meta := r.meta.(attempt := attempt, maxAttempts := maxAttempts))
  }

  /** The first attempt from `a` up to `maxRetries` whose response is OK. */
  function FirstOk(inp: SearchInput, s: Config.Settings, runs: nat -> RunOutcome, a: nat): (r: Option<nat>)
    ensures r.Some? ==> a <= r.value <= s.maxRetries && AttemptResponse(inp, s, runs, r.value).status == OK
    ensures r.Some? ==> forall b :: a <= b < r.value ==> AttemptResponse(inp, s, runs, b).status != OK
    ensures r.None? <==> forall b :: a <= b <= s.maxRetries ==> AttemptResponse(inp, s, runs, b).status != OK
    decreases s.maxRetries - a
  {
    if a > s.maxRetries then None
    else if AttemptResponse(inp, s, runs, a).status == OK then Some(a)
    else FirstOk(inp, s, runs, a + 1)
  }

  /** What the retry loop produced: the response, the answer stored in the
      search cache if any, the attempts made and the pauses between them. */
  datatype Retried = Retried(response: ToolResponse, cacheWrite: Option<string>, attempts: nat, sleeps: nat)

  /** The retry loop: attempts 1 to `maxRetries` until one is OK. An OK
      answer with data is cached as is and returned behind the resolution
      note (its character count still that of the bare answer); when every
      attempt failed the last error comes back as RETRY_EXHAUSTED; with no
      attempt at all an INTERNAL error. */
  function Retry(inp: SearchInput, s: Config.Settings, runs: nat -> RunOutcome, note: string): (r: Retried)
    ensures r.response.status == OK <==> exists a :: 1 <= a <= s.maxRetries && AttemptResponse(inp, s, runs, a).status == OK
    ensures r.cacheWrite.Some? ==>
      (r.response.status == OK && r.cacheWrite.value != [] && r.response.data == Some(note + r.cacheWrite.value))
    ensures r.response.status != OK ==> r.attempts == (if s.maxRetries >= 1 then s.maxRetries else 0)
    ensures r.sleeps == (if r.attempts > 0 then r.attempts - 1 else 0)
  {
    match FirstOk(inp, s, runs, 1)
    case Some(a) =>
      var res := Stamp(AttemptResponse(inp, s, runs, a), a, s.maxRetries);
      if res.data.Some? && res.data.value != [] then
        Retried(res.(data := Some(note + res.data.value)), Some(res.data.value), a, a - 1)
      else Retried(res, None, a, a - 1)
    case None =>
      if s.maxRetries >= 1 then
        var last := Stamp(AttemptResponse(inp, s, runs, s.maxRetries), s.maxRetries, s.maxRetries);
        Retried(last.(code := Some(RETRY_EXHAUSTED)), None, s.maxRetries, s.maxRetries - 1)
      else
        Retried(Error(INTERNAL, "All retry attempts failed.", None, None, DEFAULT_META), None, 0, 0)
  }

  /** The first OK attempt wins: its response, stamped with its number,
      comes back and no later attempt is made. */
  lemma FirstOkWins(inp: SearchInput, s: Config.Settings, runs: nat -> RunOutcome, note: string, a: nat)
    requires 1 <= a <= s.maxRetries && AttemptResponse(inp, s, runs, a).status == OK
    requires forall b :: 1 <= b < a ==> AttemptResponse(inp, s, runs, b).status != OK
    ensures var r := Retry(inp, s, runs, note);
      var first := AttemptResponse(inp, s, runs, a);
      && r.attempts == a && r.sleeps == a - 1
      && r.response.meta == first.meta.(attempt := a, maxAttempts := s.maxRetries)
      && (first.data.Some? && first.data.value != [] ==>
            r.cacheWrite == first.data && r.response.data == Some(note + first.data.value))
  {
    assert FirstOk(inp, s, runs, 1) == Some(a);
  }

  /** Exhausted retries return the last attempt's error with the
      RETRY_EXHAUSTED code, its message kept. */
  lemma ExhaustedKeepsLastError(inp: SearchInput, s: Config.Settings, runs: nat -> RunOutcome, note: string)
    requires s.maxRetries >= 1
    requires forall b :: 1 <= b <= s.maxRetries ==> AttemptResponse(inp, s, runs, b).status != OK
    ensures var r := Retry(inp, s, runs, note);
      var last := AttemptResponse(inp, s, runs, s.maxRetries);
      && r.response.code == Some(RETRY_EXHAUSTED)
      && r.response.message == last.message && r.response.status == last.status
      && r.response.meta.attempt == s.maxRetries && r.cacheWrite.None?
  {
  }

  /** The retry loop as the source runs it. */
  method SearchWithRetries(inp: SearchInput, s: Config.Settings, runs: nat -> RunOutcome, note: string) returns (r: Retried)
    ensures r == Retry(inp, s, runs, note)
  {
    var lastError: Option<ToolResponse> := None;
    var sleeps := 0;
    var attempt := 1;
    while attempt <= s.maxRetries
      invariant 1 <= attempt && (attempt > 1 ==> attempt <= s.maxRetries + 1)
      invariant FirstOk(inp, s, runs, 1) == FirstOk(inp, s, runs, attempt)
      invariant attempt <= s.maxRetries ==> sleeps == attempt - 1
      invariant attempt > s.maxRetries ==> sleeps == (if attempt > 1 then attempt - 2 else 0)
      invariant attempt == 1 <==> lastError.None?
      invariant attempt > 1 ==> lastError == Some(Stamp(AttemptResponse(inp, s, runs, attempt - 1), attempt - 1, s.maxRetries))
    {
      var result := RunSearch(inp, s, runs(attempt));
      if result.status == OK {
        var res := Stamp(result, attempt, s.maxRetries);
        if res.data.Some? && res.data.value != [] {
          return Retried(res.(data := Some(note + res.data.value)), Some(res.data.value), attempt, sleeps);
        }
        return Retried(res, None, attempt, sleeps);
      }
      lastError := Some(Stamp(result, attempt, s.maxRetries));
      if attempt < s.maxRetries {
        sleeps := sleeps + 1;
      }
      attempt := attempt + 1;
    }
    if lastError.Some? {
      return Retried(lastError.value.(code := Some(RETRY_EXHAUSTED)), None, attempt - 1, sleeps);
    }
    r := Retried(Error(INTERNAL, "All retry attempts failed.", None, None, DEFAULT_META), None, 0, 0);
  }

  // ----- codewiki_search_wiki --------------------------------------------------

  /** The response to a search-cache hit: the note and the cached answer. */
  function CacheHitResponse(inp: SearchInput, note: string, cached: string): (r: ToolResponse)
    ensures r.status == OK && r.data == Some(note + cached)
  {
    Success(note + cached, Some(inp.repoUrl), Some(inp.query), DEFAULT_META)
  }

  /** The same answer reports different character counts on the two paths
      when the resolution note is not empty: a cache hit counts the note, a
      fresh answer does not. */
  lemma NoteCountedOnlyOnCacheHit(inp: SearchInput, s: Config.Settings, runs: nat -> RunOutcome, note: string, a: nat)
    requires 1 <= a <= s.maxRetries
    requires runs(a).Completed? && runs(a).result.response.status == OK
    requires runs(a).result.response.data.Some? && runs(a).result.response.data.value != []
    requires runs(a).result.response.meta.charCount == |runs(a).result.response.data.value|
    requires forall b :: 1 <= b < a ==> AttemptResponse(inp, s, runs, b).status != OK
    ensures var answer := runs(a).result.response.data.value;
      var live := Retry(inp, s, runs, note);
      && live.cacheWrite == Some(answer)
      && live.response.meta.charCount == |answer|
      && CacheHitResponse(inp, note, answer).meta.charCount == |note| + |answer|
  {
    FirstOkWins(inp, s, runs, note, a);
  }

  /** `codewiki_search_wiki` after keyword resolution: validation, the rate
      check on the normalised URL, the search cache, then the retry loop;
      a fresh answer with data is stored in the search cache at `finished`.
      `note` is the resolution note, `runs` what each attempt's browser loop
      did. */
  method SearchWiki(caches: Cache.Caches, limiter: RateLimit.RateLimiter, repoUrl: string, query: string,
                    s: Config.Settings, rs: Helpers.RateSettings, now: int, finished: int, note: string,
                    runs: nat -> RunOutcome)
    returns (r: ToolResponse)
    modifies caches, limiter
    ensures caches.pages == old(caches.pages) && caches.parsed == old(caches.parsed)
    ensures ValidateSearchInput(repoUrl, query).Err? ==>
      (r == ValidateSearchInput(repoUrl, query).error
       && limiter.windows == old(limiter.windows) && caches.searches == old(caches.searches))
    ensures ValidateSearchInput(repoUrl, query).Ok? ==>
      var inp := ValidateSearchInput(repoUrl, query).value;
      var d := RateLimit.Admit(old(limiter.Timestamps(inp.repoUrl)), now, rs.windowSeconds, rs.maxCalls);
      var hit := Cache.Lookup(old(caches.searches), Cache.SearchKey(inp.repoUrl, inp.query), now);
      var rt := Retry(inp, s, runs, note);
      && limiter.windows == old(limiter.windows)[inp.repoUrl := d.kept]
      && (!d.allowed ==>
            r == Error(RATE_LIMITED, Helpers.RateLimitedMessage(inp.repoUrl, rs), Some(inp.repoUrl), Some(inp.query), DEFAULT_META)
            && caches.searches == old(caches.searches))
      && (d.allowed && hit.Some? ==>
            r == CacheHitResponse(inp, note, hit.value) && caches.searches == old(caches.searches))
      && (d.allowed && hit.None? ==>
            r == rt.response
            && caches.searches == (if rt.cacheWrite.Some?
                                   then old(caches.searches)[Cache.SearchKey(inp.repoUrl, inp.query)
                                                             := Cache.Entry(rt.cacheWrite.value, finished + caches.searchTtl)]
                                   else old(caches.searches)))
  {
    var validated := ValidateSearchInput(repoUrl, query);
    if validated.Err? {
      return validated.error;
    }
    var inp := validated.value;
    var allowed := limiter.CheckRateLimit(inp.repoUrl, now, rs.windowSeconds, rs.maxCalls);
    if !allowed {
      return Error(RATE_LIMITED, Helpers.RateLimitedMessage(inp.repoUrl, rs), Some(inp.repoUrl), Some(inp.query), DEFAULT_META);
    }
    var cached := caches.GetCachedSearch(inp.repoUrl, inp.query, now);
    if cached.Some? {
      return CacheHitResponse(inp, note, cached.value);
    }
    var rt := SearchWithRetries(inp, s, runs, note);
    if rt.cacheWrite.Some? {
      caches.SetCachedSearch(inp.repoUrl, inp.query, rt.cacheWrite.value, finished);
    }
    r := rt.response;
  }
}
