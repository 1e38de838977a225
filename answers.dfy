/**
  Post-processing of the model's answer (app/main.py, `chat`). On the document path the
  chain's answer goes through three best-effort string repairs, each guarded by a substring
  test; on the general path an empty reply is replaced by a fixed sentence.
*/
module Answers {
  import opened Strings

  /** The answer given when the retriever finds nothing. */
  const NoInformationAnswer := "I don't have enough information to answer this."
  /** The preamble that makes the handler drop the answer's first paragraph. */
  const HistoryPreambleMarker := "Based on the provided chat history"
  /** The disclaimer "Please note that specific requirements may vary", which makes the
      handler cut the answer at "Please note"; it is built from `DisclaimerCut` so that the
      disclaimer visibly begins with it. */
  const DisclaimerMarker := DisclaimerCut + " that specific requirements may vary"
  /** Where the handler cuts such an answer; the disclaimer begins with it. */
  const DisclaimerCut := "Please note"
  /** The general-path answer when the model's reply is blank. */
  const DefaultGeneralReply := "I'm here and doing fine, thanks for asking!"

  /** Step 1: when the prompt is echoed, every occurrence is deleted and the rest stripped.
      What remains is the text between the echoes, concatenated and stripped; it is shorter
      than the answer by at least the deleted copies of the prompt. */
  function StripEcho(answer: string, prompt: string): (r: string)
    ensures !Occurs(prompt, answer) ==> r == answer
    ensures |prompt| > 0 && Occurs(prompt, answer) ==>
      Stripped(r) && exists i :: TrimmedAt(Join("", Split(answer, prompt)), r, i)
    ensures prompt == [] ==> Stripped(r) && exists i :: TrimmedAt(answer, r, i)
    ensures |prompt| > 0 && Occurs(prompt, answer) ==> |r| <= |answer| - |prompt| * Count(answer, prompt)
    ensures |r| <= |answer|
  {
    if Contains(answer, prompt) then
      var removed := RemoveAll(answer, prompt);
      StripIsSubstring(removed);
      if |prompt| > 0 then
        RemoveAllLength(answer, prompt);
        RemoveAllSplit(answer, prompt);
        Strip(removed)
      else Strip(removed)
    else answer
  }

  /** Step 2: an answer that talks about "the provided chat history" loses everything up to
      its first paragraph break. The result is a substring of the answer; with the preamble
      it is the text after the first paragraph break with its outer whitespace cut off. */
  function DropHistoryPreamble(answer: string): (r: string)
    ensures Occurs(r, answer)
    ensures !Occurs(HistoryPreambleMarker, answer) ==> r == answer
    ensures Occurs(HistoryPreambleMarker, answer) ==> Occurs(r, AfterFirst(answer, ParagraphBreak))
    ensures Occurs(HistoryPreambleMarker, answer) ==>
      Stripped(r) && exists i :: TrimmedAt(AfterFirst(answer, ParagraphBreak), r, i)
  {
    if Contains(answer, HistoryPreambleMarker) then
      var tail := AfterFirst(answer, ParagraphBreak);
      StripIsSubstring(tail);
      OccursTransitive(Strip(tail), tail, answer);
      Strip(tail)
    else
      OccursInSelf(answer);
      answer
  }

  /** Step 3: an answer with the "requirements may vary" disclaimer is cut before the first
      "Please note". The result is a substring of the answer; with the disclaimer it is the
      text before the first "Please note" with its outer whitespace cut off, and no
      "Please note" is left in it. */
  function CutDisclaimer(answer: string): (r: string)
    ensures Occurs(r, answer)
    ensures !Occurs(DisclaimerMarker, answer) ==> r == answer
    ensures Occurs(DisclaimerMarker, answer) ==> !Occurs(DisclaimerCut, r)
    ensures Occurs(DisclaimerMarker, answer) ==>
      Find(answer, DisclaimerCut).Some? && Stripped(r)
      && exists i :: TrimmedAt(answer[..Find(answer, DisclaimerCut).value], r, i)
  {
    if Contains(answer, DisclaimerMarker) then
      var head := Split(answer, DisclaimerCut)[0];
      DisclaimerHasCut(answer);
      CutDisclaimerHead(answer);
      StripIsSubstring(head);
      OccursTransitive(Strip(head), head, answer);
      NotOccursInSubstring(DisclaimerCut, Strip(head), head);
      Strip(head)
    else
      OccursInSelf(answer);
      answer
  }

  /** The disclaimer starts with "Please note", so an answer holding it holds "Please note". */
  lemma DisclaimerHasCut(answer: string)
    requires Occurs(DisclaimerMarker, answer)
    ensures Occurs(DisclaimerCut, answer)
  {
    assert DisclaimerMarker[..|DisclaimerCut|] == DisclaimerCut;
    OccursPrefix(answer, DisclaimerMarker, DisclaimerCut);
  }

  /** `split("Please note")[0]` is the text before the first "Please note". */
  lemma CutDisclaimerHead(answer: string)
    requires Find(answer, DisclaimerCut).Some?
    ensures Split(answer, DisclaimerCut)[0] == answer[..Find(answer, DisclaimerCut).value]
  {
  }

  /** The three steps in the order the handler applies them. The last two only ever keep a
      substring of what the first one leaves. */
  function PostProcess(answer: string, prompt: string): (r: string)
    ensures Occurs(r, StripEcho(answer, prompt))
  {
    var a1 := StripEcho(answer, prompt);
    var a2 := DropHistoryPreamble(a1);
    OccursTransitive(CutDisclaimer(a2), a2, a1);
    CutDisclaimer(a2)
  }

  /** Post-processing never lengthens the answer. */
  lemma PostProcessNeverLonger(answer: string, prompt: string)
    ensures |PostProcess(answer, prompt)| <= |answer|
  {
    var a1 := StripEcho(answer, prompt);
    var a2 := DropHistoryPreamble(a1);
    var a3 := CutDisclaimer(a2);
    OccursLength(a2, a1);
    OccursLength(a3, a2);
  }

  /** An answer that echoes nothing and contains neither marker is left as it is. */
  lemma PostProcessUnchanged(answer: string, prompt: string)
    requires !Occurs(prompt, answer)
    requires !Occurs(HistoryPreambleMarker, answer) && !Occurs(DisclaimerMarker, answer)
    ensures PostProcess(answer, prompt) == answer
  {
  }

  /** When the disclaimer reaches step 3, the answer that leaves it has no "Please note". */
  lemma PostProcessDropsDisclaimer(answer: string, prompt: string)
    requires Occurs(DisclaimerMarker, DropHistoryPreamble(StripEcho(answer, prompt)))
    ensures !Occurs(DisclaimerCut, PostProcess(answer, prompt))
  {
  }

  /** Post-processing is not idempotent: deleting the echoed prompt can form a new echo. */
  lemma PostProcessNotIdempotent()
    ensures PostProcess(PostProcess("aabb", "ab"), "ab") != PostProcess("aabb", "ab")
  {
    EchoOfAb();
    PostProcessAfterEcho("aabb", "ab");
    PostProcessAfterEcho("ab", "ab");
  }

  /** When the echo-free answer holds neither marker, only the first repair acts. */
  lemma PostProcessAfterEcho(answer: string, prompt: string)
    requires !Occurs(HistoryPreambleMarker, StripEcho(answer, prompt))
    requires !Occurs(DisclaimerMarker, StripEcho(answer, prompt))
    ensures PostProcess(answer, prompt) == StripEcho(answer, prompt)
  {
  }

  /** The two echo removals behind `PostProcessNotIdempotent`. */
  lemma EchoOfAb()
    ensures StripEcho("aabb", "ab") == "ab" && StripEcho("ab", "ab") == ""
    ensures !Occurs(HistoryPreambleMarker, "ab") && !Occurs(DisclaimerMarker, "ab")
    ensures !Occurs(HistoryPreambleMarker, "") && !Occurs(DisclaimerMarker, "")
  {
    EchoOfAabb();
    EchoOfAbAlone();
  }

  /** Deleting "ab" from "aabb" leaves "ab", already stripped. */
  lemma EchoOfAabb()
    ensures StripEcho("aabb", "ab") == "ab"
  {
    RemoveAbFromAabb();
    StripStripped("ab");
  }

  /** Deleting "ab" from "ab" leaves nothing. */
  lemma EchoOfAbAlone()
    ensures StripEcho("ab", "ab") == ""
  {
    RemoveAbFromAb();
    StripStripped("");
  }

  lemma RemoveAbFromAabb()
    ensures Occurs("ab", "aabb") && RemoveAll("aabb", "ab") == "ab"
  {
    assert "aabb"[1..3] == "ab";
    assert OccursAt("aabb", "ab", 1);
    assert "aabb"[..2][1] == 'a' != "ab"[1];
    assert "aabb"[1..] == "abb";
    assert "abb"[..2] == "ab" && "abb"[2..] == "b";
    assert RemoveAll("b", "ab") == "b";
    assert RemoveAll("abb", "ab") == "b";
  }

  lemma RemoveAbFromAb()
    ensures Occurs("ab", "ab") && RemoveAll("ab", "ab") == ""
  {
    assert "ab"[0..2] == "ab";
    assert OccursAt("ab", "ab", 0);
    assert "ab"[..2] == "ab" && "ab"[2..] == "";
  }

  /** The fixed answer has no whitespace at either end. */
  lemma NoInformationAnswerStripped()
    ensures Strip(NoInformationAnswer) == NoInformationAnswer
  {
    var head, tail := "I don't have enough ", "information to answer this.";
    assert NoInformationAnswer == head + tail;
    assert (head + tail)[0] == head[0] == 'I';
    assert (head + tail)[|head| + |tail| - 1] == tail[|tail| - 1] == '.';
    StripStripped(NoInformationAnswer);
  }

  /** The general path: the stripped reply, or the fixed sentence when that is empty.
      The answer is never empty and has no whitespace at either end. */
  function GeneralReply(content: string): (r: string)
    ensures r != "" && Stripped(r)
    ensures Strip(content) != "" ==> r == Strip(content)
    ensures Strip(content) == "" ==> r == DefaultGeneralReply
  {
    DefaultGeneralReplyStripped();
    var reply := Strip(content);
    if reply == "" then DefaultGeneralReply else reply
  }

  /** The fixed general answer has no whitespace at either end. */
  lemma DefaultGeneralReplyStripped()
    ensures DefaultGeneralReply != "" && Stripped(DefaultGeneralReply)
  {
    assert DefaultGeneralReply[0] == 'I' && DefaultGeneralReply[|DefaultGeneralReply| - 1] == '!';
  }
}
