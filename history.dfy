/** The history panel: each successful encryption is put in front of the list,
    which keeps at most ten entries, and each entry shows a short preview of
    the message. */
module History {
  import opened JsBuiltins

  /** `newHistoryItem`: the stored id, the detected emotions and scores, the
      store's timestamp and the message preview. */
  datatype HistoryItem = HistoryItem(
    id: JsString, emotions: seq<JsString>, confidenceScores: seq<real>,
    timestamp: JsString, preview: JsString)

  const HistoryLimit: nat := 10
  const PreviewLength: nat := 50
  const Ellipsis := Str("...")

  /** `message.substring(0, 50) + (message.length > 50 ? "..." : "")`: a
      message of at most 50 code units is its own preview; a longer one is cut
      to its first 50 code units followed by "...", so no preview is longer
      than 53 code units. */
  function Preview(message: JsString): (r: JsString)
    ensures |message| <= PreviewLength ==> r == message
    ensures |message| > PreviewLength ==> r == message[..PreviewLength] + Ellipsis && |r| == PreviewLength + 3
    ensures |r| <= PreviewLength + 3
  {
    ClampedSlice(message, 0, PreviewLength) + (if |message| > PreviewLength then Ellipsis else [])
  }

  function NewHistoryItem(id: JsString, emotions: seq<JsString>, confidenceScores: seq<real>,
                          timestamp: JsString, message: JsString): HistoryItem
  {
    HistoryItem(id, emotions, confidenceScores, timestamp, Preview(message))
  }

  /** In well-formed UTF-16 every high surrogate has its low surrogate right after it. */
  lemma {:induction false} HighSurrogatePaired(s: JsString, i: nat)
    requires WellFormed(s) && i < |s| && IsHighSurrogate(s[i])
    ensures i + 1 < |s| && IsLowSurrogate(s[i + 1])
    decreases |s|
  {
    if IsHighSurrogate(s[0]) {
      if i >= 2 {
        HighSurrogatePaired(s[2..], i - 2);
      }
    } else if i >= 1 {
      HighSurrogatePaired(s[1..], i - 1);
    }
  }

  /** The cut counts code units, not characters: when the 50th code unit of a
      longer message is the first half of a surrogate pair (an emoji, say), the
      preview ends in half a character and is no longer well-formed UTF-16. */
  lemma PreviewMaySplitPair(message: JsString)
    requires |message| > PreviewLength && IsHighSurrogate(message[PreviewLength - 1])
    ensures !WellFormed(Preview(message))
  {
    var p := Preview(message);
    assert p[PreviewLength - 1] == message[PreviewLength - 1];
    assert p[PreviewLength] == '.' as int;
    if WellFormed(p) {
      HighSurrogatePaired(p, PreviewLength - 1);
    }
  }

  /** For a well-formed message the preview is well-formed exactly when the cut
      does not fall inside a surrogate pair, that is, unless unit 50 of a
      longer message is a high surrogate. */
  lemma PreviewWellFormedIff(message: JsString)
    requires WellFormed(message)
    ensures WellFormed(Preview(message)) <==>
      |message| <= PreviewLength || !IsHighSurrogate(message[PreviewLength - 1])
  {
    if |message| > PreviewLength {
      if IsHighSurrogate(message[PreviewLength - 1]) {
        PreviewMaySplitPair(message);
      } else {
        PrefixWellFormed(message, PreviewLength);
        StrWellFormed("...");
        ConcatWellFormed(message[..PreviewLength], Ellipsis);
      }
    }
  }

  /** `[newHistoryItem, ...prev].slice(0, 10)`: the new item comes first, the
      previous entries follow in their order, and the oldest ones are dropped
      once there are more than ten. */
  function AddToHistory(item: HistoryItem, prev: seq<HistoryItem>): (h: seq<HistoryItem>)
    ensures |h| == Min(|prev| + 1, HistoryLimit)
    ensures h[0] == item
    ensures h[1..] == prev[..|h| - 1]
  {
    var h := ClampedSlice([item] + prev, 0, HistoryLimit);
    assert h[1..] == prev[..|h| - 1];
    h
  }

  /** After an encryption the newest entry of the history is the new item, whose
      preview is that of the message just encrypted, at most 53 code units. */
  lemma NewestEntryPreview(id: JsString, emotions: seq<JsString>, confidenceScores: seq<real>,
                           timestamp: JsString, message: JsString, prev: seq<HistoryItem>)
    ensures var h := AddToHistory(NewHistoryItem(id, emotions, confidenceScores, timestamp, message), prev);
      && h[0].id == id && h[0].emotions == emotions && h[0].confidenceScores == confidenceScores
      && h[0].timestamp == timestamp && h[0].preview == Preview(message)
      && |h[0].preview| <= PreviewLength + 3
  {
  }

  /** The history after encrypting `items` in order, starting from `prev`. */
  function Replay(prev: seq<HistoryItem>, items: seq<HistoryItem>): seq<HistoryItem>
    decreases |items|
  {
    if items == [] then prev else Replay(AddToHistory(items[0], prev), items[1..])
  }

  /** `items` with the last one first. */
  function NewestFirst<T>(items: seq<T>): seq<T>
  {
    if items == [] then [] else NewestFirst(items[1..]) + [items[0]]
  }

  lemma {:induction false} NewestFirstLength<T>(items: seq<T>)
    ensures |NewestFirst(items)| == |items|
  {
    if items != [] {
      NewestFirstLength(items[1..]);
    }
  }

  lemma TakeOfAppendTake<T>(a: seq<T>, b: seq<T>, n: nat)
    ensures ClampedSlice(a + ClampedSlice(b, 0, n), 0, n) == ClampedSlice(a + b, 0, n)
  {
    var l := ClampedSlice(a + ClampedSlice(b, 0, n), 0, n);
    var r := ClampedSlice(a + b, 0, n);
    assert |l| == |r|;
    forall k | 0 <= k < |l|
      ensures l[k] == r[k]
    {
      if k >= |a| {
        assert l[k] == b[k - |a|];
      }
    }
  }

  /** However many messages are encrypted, the history holds the ten most recent
      ones (or all, if fewer), newest first, followed by what was there before
      while room remains. */
  lemma {:induction false} ReplayKeepsNewest(prev: seq<HistoryItem>, items: seq<HistoryItem>)
    ensures Replay(prev, items) ==
      if items == [] then prev else ClampedSlice(NewestFirst(items) + prev, 0, HistoryLimit)
    decreases |items|
  {
    if items != [] {
      var next := AddToHistory(items[0], prev);
      var rest := items[1..];
      assert NewestFirst(items) + prev == NewestFirst(rest) + ([items[0]] + prev);
      if rest == [] {
        assert NewestFirst(rest) == [];
        assert NewestFirst(items) + prev == [items[0]] + prev;
      } else {
        ReplayKeepsNewest(next, rest);
        TakeOfAppendTake(NewestFirst(rest), [items[0]] + prev, HistoryLimit);
      }
    }
  }

  /** Starting from an empty history, it is the last min(n, 10) items, newest first. */
  lemma {:induction false} HistoryOfFreshStart(items: seq<HistoryItem>)
    ensures |Replay([], items)| == Min(|items|, HistoryLimit)
    ensures forall k :: 0 <= k < |Replay([], items)| ==> Replay([], items)[k] == items[|items| - 1 - k]
  {
    ReplayKeepsNewest([], items);
    NewestFirstLength(items);
    forall k | 0 <= k < |Replay([], items)|
      ensures Replay([], items)[k] == items[|items| - 1 - k]
    {
      NewestFirstAt(items, k);
    }
  }

  lemma {:induction false} NewestFirstAt<T>(items: seq<T>, k: nat)
    requires k < |items|
    ensures |NewestFirst(items)| == |items| && NewestFirst(items)[k] == items[|items| - 1 - k]
  {
    NewestFirstLength(items);
    if k < |items| - 1 {
      NewestFirstAt(items[1..], k);
    }
  }
}
