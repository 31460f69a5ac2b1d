/** The older translation entry point of api/apps/services.py: the same
    conversation with a fixed temperature of 0.4 and its own ceiling of 100
    rounds; its errors reach the caller unwrapped and nothing is stored. */
module LegacyServices {
  import opened Wrappers
  import opened Errors
  import opened Models
  import opened Conversation

  const LEGACY_TEMPERATURE: real := 0.4
  const LEGACY_MAX_ITERATIONS: nat := 100

  /** _translate_subtitle_anthropic: reads the Settings row, then converses. */
  method TranslateSubtitleAnthropic(db: Database, source: Subtitle, targetLanguage: string,
                                    replies: nat -> Reply)
    returns (sent: seq<Request>, result: Result<string, Error>)
    ensures result == TranslationOutcome(db.FirstSettings(), source.content, LEGACY_MAX_ITERATIONS, replies)
    ensures TranslationRequests(db.FirstSettings(), source.content, targetLanguage,
                                Some(LEGACY_TEMPERATURE), LEGACY_MAX_ITERATIONS, replies, sent)
  {
    sent, result := Translate(db.FirstSettings(), source.content, targetLanguage,
                              Some(LEGACY_TEMPERATURE), LEGACY_MAX_ITERATIONS, replies);
  }

  /** translate_subtitle_content: exactly what _translate_subtitle_anthropic
      returns for the same arguments. */
  method TranslateSubtitleContent(db: Database, source: Subtitle, targetLanguage: string,
                                  replies: nat -> Reply)
    returns (sent: seq<Request>, result: Result<string, Error>)
    ensures result == TranslationOutcome(db.FirstSettings(), source.content, LEGACY_MAX_ITERATIONS, replies)
    ensures TranslationRequests(db.FirstSettings(), source.content, targetLanguage,
                                Some(LEGACY_TEMPERATURE), LEGACY_MAX_ITERATIONS, replies, sent)
  {
    sent, result := TranslateSubtitleAnthropic(db, source, targetLanguage, replies);
  }
}
