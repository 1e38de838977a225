/**
  The rolling chat history of app/main.py (`chat_history`, a list of lines
  "User: <prompt>" and "Bot: <response>"). A finished turn appends its two lines and keeps
  the last ten; a turn that raised appends its two lines and keeps everything.
*/
module History {
  import opened Common
  import opened Strings

  /** The number of history lines kept after a successful turn: ten lines, five turns. */
  const HistoryCap: nat := 10
  /** What the general prompt shows for an empty history. */
  const NoPreviousConversation := "No previous conversation."

  /** The two history lines of one turn. */
  function Exchange(prompt: string, response: string): seq<string>
  {
    ["User: " + prompt, "Bot: " + response]
  }

  /** `h[-n:]` when `h` is longer than `n`, otherwise `h` itself: the last `min(n, |h|)`
      lines. */
  function KeepLast(h: seq<string>, n: nat): (r: seq<string>)
    ensures |r| == Min(n, |h|) && r == h[|h| - |r|..]
  {
    if |h| > n then h[|h| - n..] else h
  }

  /** The history after a successful turn: its two lines appended, then cut to the cap.
      Only the oldest lines are dropped, the length never exceeds the cap, and the turn's
      two lines come last. */
  function RecordTurn(h: seq<string>, prompt: string, response: string): (r: seq<string>)
    ensures |r| == Min(HistoryCap, |h| + 2) && |r| <= HistoryCap
    ensures r == (h + Exchange(prompt, response))[|h| + 2 - |r|..]
    ensures r[|r| - 2..] == Exchange(prompt, response)
  {
    KeepLast(h + Exchange(prompt, response), HistoryCap)
  }

  /** The history after a turn that raised: its two lines appended, nothing dropped, so the
      history may grow past the cap. */
  function RecordFailure(h: seq<string>, prompt: string, message: string): (r: seq<string>)
    ensures |r| == |h| + 2 && r[..|h|] == h
    ensures r[|h|..] == Exchange(prompt, ErrorText(message))
  {
    h + Exchange(prompt, ErrorText(message))
  }

  /** `f"Error: {str(e)}"`: the message behind the prefix "Error: ". */
  function ErrorText(message: string): (r: string)
    ensures |r| == |message| + 7 && r[..7] == "Error: " && r[7..] == message
  {
    "Error: " + message
  }

  /** Failed turns are not capped: a full history grows beyond the cap. */
  lemma FailureExceedsCap(h: seq<string>, prompt: string, message: string)
    requires |h| >= HistoryCap
    ensures |RecordFailure(h, prompt, message)| > HistoryCap
  {
  }

  /** The history as the general prompt shows it. */
  function RenderHistory(h: seq<string>): (r: string)
    ensures h == [] ==> r == NoPreviousConversation
  {
    if h == [] then NoPreviousConversation else Join("\n", h)
  }

  /** The rendered history gives back its lines when none of them holds a newline. */
  lemma RenderHistoryLines(h: seq<string>)
    requires h != [] && forall k :: 0 <= k < |h| ==> !Occurs("\n", h[k])
    ensures Split(RenderHistory(h), "\n") == h
  {
    SplitJoin(h, "\n");
  }

  /** Cutting twice is cutting once: keeping the last `n` of what is kept plus new lines
      equals keeping the last `n` of everything. */
  lemma KeepLastCompose(x: seq<string>, b: seq<string>, n: nat)
    ensures KeepLast(KeepLast(x, n) + b, n) == KeepLast(x + b, n)
  {
    var y := KeepLast(x, n);
    if |x| > n {
      assert y == x[|x| - n..] && |y| == n;
      var lhs, rhs := KeepLast(y + b, n), KeepLast(x + b, n);
      assert |y + b| >= n && |x + b| > n;
      assert lhs == (y + b)[|b|..] && rhs == (x + b)[|x| + |b| - n..];
      assert |lhs| == |rhs| == n;
      forall i | 0 <= i < n ensures lhs[i] == rhs[i] {
        assert lhs[i] == (y + b)[|b| + i] && rhs[i] == (x + b)[|x| + |b| - n + i];
        if |b| + i < n {
          assert (y + b)[|b| + i] == y[|b| + i] == x[|x| - n + |b| + i];
        } else {
          assert (y + b)[|b| + i] == b[|b| + i - n];
        }
      }
    }
  }

  /** All the history lines of a series of successful turns, in order. */
  function Transcript(turns: seq<(string, string)>): seq<string>
  {
    if turns == [] then [] else Exchange(turns[0].0, turns[0].1) + Transcript(turns[1..])
  }

  /** The history after a series of successful turns. */
  function Replay(h: seq<string>, turns: seq<(string, string)>): seq<string>
    decreases |turns|
  {
    if turns == [] then h else Replay(RecordTurn(h, turns[0].0, turns[0].1), turns[1..])
  }

  /** After any series of successful turns, the history holds exactly the last ten of all
      lines ever recorded, in their original order: the oldest are evicted first. */
  lemma {:induction false} ReplayKeepsMostRecent(h: seq<string>, turns: seq<(string, string)>)
    requires turns != []
    decreases |turns|
    ensures Replay(h, turns) == KeepLast(h + Transcript(turns), HistoryCap)
  {
    var e := Exchange(turns[0].0, turns[0].1);
    var rest := turns[1..];
    var h1 := RecordTurn(h, turns[0].0, turns[0].1);
    assert h1 == KeepLast(h + e, HistoryCap);
    assert Transcript(turns) == e + Transcript(rest);
    assert Replay(h, turns) == Replay(h1, rest);
    if rest == [] {
      assert h + Transcript(turns) == h + e;
    } else {
      ReplayKeepsMostRecent(h1, rest);
      KeepLastCompose(h + e, Transcript(rest), HistoryCap);
      assert h + e + Transcript(rest) == h + Transcript(turns);
    }
  }
}
