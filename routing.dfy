/**
  Routing of a chat prompt (app/main.py): a prompt is document-related when one of the
  configured keywords, lower-cased, is a substring of the lower-cased prompt; every other
  prompt is answered by the direct model call.
*/
module Routing {
  import opened Strings

  /** `DOC_RELATED_KEYWORDS`. */
  const DocRelatedKeywords: seq<string> := ["BOI", "report", "information", "procedure", "file"]

  /** `any(keyword.lower() in text for keyword in keywords)`, for an already lower-cased `text`. */
  function AnyKeywordIn(keywords: seq<string>, text: string): bool
    decreases |keywords|
  {
    if keywords == [] then false
    else Contains(text, Lower(keywords[0])) || AnyKeywordIn(keywords[1..], text)
  }

  /** The scan finds a keyword exactly when one of them, lower-cased, occurs in the text. */
  lemma {:induction false} AnyKeywordInSpec(keywords: seq<string>, text: string)
    decreases |keywords|
    ensures AnyKeywordIn(keywords, text) <==> exists k :: k in keywords && Occurs(Lower(k), text)
  {
    if keywords != [] {
      assert keywords == [keywords[0]] + keywords[1..];
      AnyKeywordInSpec(keywords[1..], text);
    }
  }

  /** `is_doc_related`: a prompt takes the document path exactly when one of the keywords,
      lower-cased, is a substring of the lower-cased prompt; every other prompt takes the
      general path. */
  function IsDocRelated(prompt: string): (r: bool)
    ensures r <==> exists k :: k in DocRelatedKeywords && Occurs(Lower(k), Lower(prompt))
  {
    AnyKeywordInSpec(DocRelatedKeywords, Lower(prompt));
    AnyKeywordIn(DocRelatedKeywords, Lower(prompt))
  }

  /** Routing depends on the prompt only up to the case of its ASCII letters. */
  lemma RoutingIgnoresCase(p: string, q: string)
    requires Lower(p) == Lower(q)
    ensures IsDocRelated(p) == IsDocRelated(q)
  {
  }

  /** Routing a lower-cased prompt gives the same route. */
  lemma RoutingOfLowered(p: string)
    ensures IsDocRelated(Lower(p)) == IsDocRelated(p)
  {
    LowerIdempotent(p);
  }

  /** A prompt that mentions the BOI report is document-related, whatever its case. */
  lemma MentionOfBoiIsDocRelated(prompt: string, i: nat)
    requires i + 3 <= |prompt| && Lower(prompt[i..i + 3]) == "boi"
    ensures IsDocRelated(prompt)
  {
    assert Lower("BOI") == "boi";
    assert Lower(prompt)[i..i + 3] == Lower(prompt[i..i + 3]);
    assert OccursAt(Lower(prompt), "boi", i);
    assert "BOI" in DocRelatedKeywords;
  }
}
