/**
  `CustomTextSplitter.split_text` of the text-splitting tutorial
  (app/Tutorial/Rag/RAG-Textsplitting-deep-dive.py): a text is cut into paragraphs at every
  blank line, `text.split("\n\n")`.
*/
module TextSplitting {
  import opened Common
  import opened Strings

  /** The paragraphs of `text`. Joining them with a blank line gives back the text; there is
      always at least one; none contains a blank line; there is one more paragraph than
      there are (non-overlapping, left to right) blank lines; and each cut is made at the
      leftmost blank line that follows the previous one. */
  function SplitText(text: string): (pieces: seq<string>)
    ensures |pieces| >= 1
    ensures Join(ParagraphBreak, pieces) == text
    ensures forall k :: 0 <= k < |pieces| ==> !Occurs(ParagraphBreak, pieces[k])
    ensures |pieces| == Count(text, ParagraphBreak) + 1
    ensures !Occurs(ParagraphBreak, text) ==> pieces == [text]
    ensures forall k :: 0 <= k < |pieces| - 1 ==>
              Find(pieces[k] + ParagraphBreak, ParagraphBreak) == Some(|pieces[k]|)
  {
    SplitCount(text, ParagraphBreak);
    Split(text, ParagraphBreak)
  }

  /** The empty text is one empty paragraph. */
  lemma SplitTextEmpty()
    ensures SplitText("") == [""]
  {
    assert !Occurs(ParagraphBreak, "");
  }

  /** Three newlines in a row are cut at the first two: the third starts the next paragraph. */
  lemma SplitTextLeftmost()
    ensures SplitText("a\n\n\nb") == ["a", "\nb"]
  {
    var text := "a\n\n\nb";
    assert text[1..3] == ParagraphBreak;
    assert text[0..2][0] == 'a' != ParagraphBreak[0];
    assert OccursAt(text, ParagraphBreak, 1) && !OccursAt(text, ParagraphBreak, 0);
    assert Find(text, ParagraphBreak) == Some(1);
    assert text[..1] == "a" && text[3..] == "\nb";
    var rest := "\nb";
    assert rest[0..2][1] == 'b' != ParagraphBreak[1];
    assert !OccursAt(rest, ParagraphBreak, 0) && !OccursAt(rest, ParagraphBreak, 1);
    assert !Occurs(ParagraphBreak, "\nb");
    assert Split("\nb", ParagraphBreak) == ["\nb"];
    assert Split(text, ParagraphBreak) == [text[..1]] + Split(text[3..], ParagraphBreak);
  }
}
