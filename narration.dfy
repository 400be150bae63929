/**
 * `tweet_talk`: the narration track of one post. The speech engine (gTTS) and
 * the audio decoder (pydub) are an oracle, `Engine`; what the function decides
 * on top of them is modelled exactly: the empty-text sentinel, the one retry
 * in the fallback language, the unsavable-text sentinel, and the length of
 * the track preamble + 1 s + body + 1 s (with the inert chaining branch of
 * `if index:`); the order of the parts is not represented.
 */
module Narration {
  import opened Wrappers

  /** What the synthesis library does with a request. */
  datatype Engine = Engine(
    knows: string -> bool,             // gTTS(lang=l) accepts l; otherwise it raises ValueError
    saves: (string, string) -> bool,   // save() of (text, lang) passes; otherwise AssertionError
    speechMs: (string, string) -> nat) // length in ms of the saved mp3 once decoded

  /** `AudioSegment.silent(duration=1000)`. */
  const SilenceMs: nat := 1000
  const BaseLanguage: string := "en"
  const FallbackLanguage: string := "ta"

  /** What one call of `tweet_talk` ends in. */
  datatype Talk =
    | EmptyText                       // 'Tweet is empty.', returns 0
    | Unsavable(bodyLang: string)     // AssertionError on saving the body, returns 0
    | Spoken(bodyLang: string, ms: nat) // tmp/res.mp3 exported, returns its duration
    | Raised                          // an exception leaves tweet_talk

  /** The spoken preamble `author + ' says..'`. */
  function Preamble(author: string): string {
    author + " says.."
  }

  /** The language the body is synthesised in: `lang`, or the fallback after ValueError. */
  function BodyLanguage(e: Engine, lang: string): string {
    if e.knows(lang) then lang else FallbackLanguage
  }

  /** Whether `tweet_talk` raises: the preamble cannot be synthesised or saved, or
      neither `lang` nor the fallback is accepted. */
  predicate Raises(e: Engine, author: string, text: string, lang: string) {
    text != "" &&
    (!e.knows(BaseLanguage) || !e.saves(Preamble(author), BaseLanguage)
     || !e.knows(BodyLanguage(e, lang)))
  }

  /** `tweet_talk(author, text, lang, index)`; `prior` is the length of the
      `tmp/res.mp3` that `AudioSegment.from_mp3` would read, `None` if reading it fails. */
  function TweetTalk(e: Engine, author: string, text: string, lang: string, index: int,
                     prior: Option<nat>): (r: Talk)
    ensures text == "" <==> r == EmptyText
    ensures r.Raised? <==> Raises(e, author, text, lang)
    ensures r.Unsavable? <==>
      (!Raises(e, author, text, lang) && text != "" && !e.saves(text, BodyLanguage(e, lang)))
    ensures (r.Spoken? || r.Unsavable?) ==> r.bodyLang == BodyLanguage(e, lang)
    ensures r.Spoken? && (index == 0 || prior.None?) ==>
      r.ms == e.speechMs(Preamble(author), BaseLanguage) + SilenceMs
              + e.speechMs(text, BodyLanguage(e, lang)) + SilenceMs
    ensures r.Spoken? && index != 0 && prior.Some? ==>
      r.ms == prior.value + SilenceMs + e.speechMs(Preamble(author), BaseLanguage) + SilenceMs
              + e.speechMs(text, BodyLanguage(e, lang)) + SilenceMs
    ensures r.Spoken? ==> r.ms >= 2 * SilenceMs
  {
    if text == "" then EmptyText
    else if !e.knows(BaseLanguage) || !e.saves(Preamble(author), BaseLanguage) then Raised
    else
      var bodyLang := if e.knows(lang) then lang else FallbackLanguage;
      if !e.knows(bodyLang) then Raised
      else if !e.saves(text, bodyLang) then Unsavable(bodyLang)
      else
        var whole := e.speechMs(Preamble(author), BaseLanguage) + SilenceMs
                     + e.speechMs(text, bodyLang) + SilenceMs;
        if index != 0 && prior.Some? then Spoken(bodyLang, prior.value + SilenceMs + whole)
        else Spoken(bodyLang, whole)
  }

  /** The value `tweet_talk` returns: `whole.duration_seconds`, or 0. */
  function Seconds(r: Talk): (s: real)
    requires !r.Raised?
    ensures s >= 0.0
    ensures s > 0.0 <==> r.Spoken? && r.ms > 0
    ensures r.Spoken? ==> s * 1000.0 == r.ms as real
  {
    if r.Spoken? then r.ms as real / 1000.0 else 0.0
  }

  /** At the only call site the index is 0, so the audio of earlier posts is never prepended. */
  lemma IndexZeroNeverChains(e: Engine, author: string, text: string, lang: string, prior: Option<nat>)
    ensures TweetTalk(e, author, text, lang, 0, prior) == TweetTalk(e, author, text, lang, 0, None)
  {
  }

  /** An unsupported language code is retried once in the fallback language, and a
      savable text then yields a track of at least the two seconds of silence. */
  lemma UnknownLanguageFallsBack(e: Engine, author: string, text: string, lang: string)
    requires text != "" && !e.knows(lang) && e.knows(FallbackLanguage)
    requires e.knows(BaseLanguage) && e.saves(Preamble(author), BaseLanguage)
    requires e.saves(text, FallbackLanguage)
    ensures TweetTalk(e, author, text, lang, 0, None) ==
      Spoken(FallbackLanguage, e.speechMs(Preamble(author), BaseLanguage) + e.speechMs(text, FallbackLanguage) + 2000)
    ensures Seconds(TweetTalk(e, author, text, lang, 0, None)) >= 2.0
  {
  }
}
