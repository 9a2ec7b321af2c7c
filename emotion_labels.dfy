/** `getEmotionEmoji` and `getEmotionColor`: the label the classifier returned,
    lower-cased, looked up in a fixed table of eleven emotions, with a default
    for any other label. */
module EmotionLabels {
  import opened JsBuiltins

  /** The emoji the page shows; only their identity matters here. */
  datatype Emoji =
    | SmilingEyes | GrinningSmilingEyes | Crying | Angry | Fearful | AnxiousWithSweat
    | Astonished | Nauseated | RedHeart | StarStruck | Disappointed | Thinking

  const DefaultEmoji := Thinking

  const EmojiTable: map<JsString, Emoji> := map[
    Str("joy") := SmilingEyes,
    Str("happiness") := GrinningSmilingEyes,
    Str("sadness") := Crying,
    Str("anger") := Angry,
    Str("fear") := Fearful,
    Str("anxiety") := AnxiousWithSweat,
    Str("surprise") := Astonished,
    Str("disgust") := Nauseated,
    Str("love") := RedHeart,
    Str("excitement") := StarStruck,
    Str("disappointment") := Disappointed]

  /** The gradient classes of the badge. */
  const DefaultColor := "from-gray-400 to-slate-600"

  const ColorTable: map<JsString, string> := map[
    Str("joy") := "from-yellow-400 to-orange-500",
    Str("happiness") := "from-yellow-400 to-orange-500",
    Str("sadness") := "from-blue-400 to-indigo-600",
    Str("anger") := "from-red-400 to-pink-600",
    Str("fear") := "from-purple-400 to-indigo-600",
    Str("anxiety") := "from-purple-400 to-indigo-600",
    Str("surprise") := "from-green-400 to-emerald-600",
    Str("disgust") := "from-gray-400 to-slate-600",
    Str("love") := "from-pink-400 to-rose-600",
    Str("excitement") := "from-orange-400 to-red-500",
    Str("disappointment") := "from-indigo-400 to-purple-600"]

  /** `emojiMap[emotion.toLowerCase()] || "🤔"`; no table entry is falsy. The
      default emoji is shown exactly for labels outside the table: no entry of
      the table is the default. */
  function EmojiFor(emotion: JsString): (r: Emoji)
    ensures r == DefaultEmoji <==> AsciiLower(emotion) !in EmojiTable
    ensures AsciiLower(emotion) in EmojiTable ==> r == EmojiTable[AsciiLower(emotion)]
  {
    var key := AsciiLower(emotion);
    if key in EmojiTable then EmojiTable[key] else DefaultEmoji
  }

  /** `colors[emotion.toLowerCase()] || "from-gray-400 to-slate-600"`. The
      default colour is shown for labels outside the table and also for
      "disgust", whose entry is the default colour; for every other label in the
      table it differs. */
  function ColorFor(emotion: JsString): (r: string)
    ensures r == DefaultColor <==> AsciiLower(emotion) !in ColorTable || AsciiLower(emotion) == Str("disgust")
    ensures AsciiLower(emotion) in ColorTable ==> r == ColorTable[AsciiLower(emotion)]
  {
    var key := AsciiLower(emotion);
    if key in ColorTable then ColorTable[key] else DefaultColor
  }

  /** The lookups ignore case: a label and its lower-case form look the same. */
  lemma CaseInsensitive(emotion: JsString)
    ensures EmojiFor(emotion) == EmojiFor(AsciiLower(emotion))
    ensures ColorFor(emotion) == ColorFor(AsciiLower(emotion))
  {
    AsciiLowerIdempotent(emotion);
  }

  /** Both tables know the same labels. */
  lemma TablesShareLabels()
    ensures EmojiTable.Keys == ColorTable.Keys
  {
  }

  /** The eleven labels are distinct. */
  lemma ElevenLabels()
    ensures |EmojiTable| == 11
  {
    // distinct by first code unit and length
    assert Str("joy")[0] == 'j' as int;
    assert Str("happiness")[0] == 'h' as int;
    assert Str("sadness")[0] == 's' as int;
    assert Str("anger")[0] == 'a' as int;
    assert Str("fear")[0] == 'f' as int;
    assert Str("anxiety")[0] == 'a' as int;
    assert Str("surprise")[0] == 's' as int;
    assert Str("disgust")[0] == 'd' as int;
    assert Str("love")[0] == 'l' as int;
    assert Str("excitement")[0] == 'e' as int;
    assert Str("disappointment")[0] == 'd' as int;
  }

  /** Every label in the table is lower case, so each is found however it is capitalised. */
  lemma LabelsAreLowerCase(key: JsString)
    requires key in EmojiTable
    ensures AsciiLower(key) == key
    ensures EmojiFor(key) == EmojiTable[key]
  {
  }
}
