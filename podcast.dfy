/**
 * `POST /api/podcast`: turns an article's text into speech with a
 * text-to-speech service. The configuration is the environment's two
 * optional values; the service is an abstract function of the request.
 */
module Podcast {
  import opened Wrappers
  import opened JsText

  const DefaultVoiceId := "khVCkwSTjNQ8vAvDc1cG"
  const TextToSpeechEndpoint := "https://api.elevenlabs.io/v1/text-to-speech/"
  const MissingCredentials := "Missing Eleven Labs credentials"
  const GenerationFailed := "Failed to generate audio"

  /** The API key and the voice id, as the environment holds them (absent or a string). */
  datatype Config = Config(apiKey: Option<string>, voiceId: Option<string>)

  /** The call made to the service: the URL, the `xi-api-key` header, and the `text` sent. */
  datatype SpeechRequest = SpeechRequest(url: string, apiKey: string, text: Option<string>)

  /** The service's answer: its `ok` flag, its status and its body. */
  datatype Upstream = Upstream(ok: bool, status: int, body: seq<bv8>)

  datatype Response = JsonError(status: int, error: string) | Audio(contentType: string, bytes: seq<bv8>)

  /** The response, and the call made to the service, if any. */
  datatype Handled = Handled(response: Response, call: Option<SpeechRequest>)

  /** A configured value that is absent or empty is falsy. */
  predicate Set(v: Option<string>) {
    v.Some? && v.value != ""
  }

  /** `ELEVEN_LABS_VOICE_ID || default`. */
  function VoiceId(config: Config): (v: string)
    ensures Set(config.voiceId) ==> v == config.voiceId.value
    ensures !Set(config.voiceId) ==> v == DefaultVoiceId
  {
    if Set(config.voiceId) then config.voiceId.value else DefaultVoiceId
  }

  function Handle(config: Config, text: Option<string>, speak: SpeechRequest -> Upstream): (h: Handled)
    ensures !Set(config.apiKey) <==> h.call.None?
    ensures !Set(config.apiKey) ==> h.response == JsonError(500, MissingCredentials)
    ensures h.call.Some? ==> h.call.value == SpeechRequest(TextToSpeechEndpoint + VoiceId(config), config.apiKey.value, text)
    ensures h.call.Some? && !speak(h.call.value).ok ==> h.response == JsonError(speak(h.call.value).status, GenerationFailed)
    ensures h.call.Some? && speak(h.call.value).ok ==> h.response == Audio("audio/mpeg", speak(h.call.value).body)
  {
    if !Set(config.apiKey) then Handled(JsonError(500, MissingCredentials), None)
    else
      var request := SpeechRequest(TextToSpeechEndpoint + VoiceId(config), config.apiKey.value, text);
      var upstream := speak(request);
      if !upstream.ok then Handled(JsonError(upstream.status, GenerationFailed), Some(request))
      else Handled(Audio("audio/mpeg", upstream.body), Some(request))
  }

  /** The service's URL names the voice: the voice id can be read back from it. */
  lemma VoiceInUrl(config: Config, text: Option<string>, speak: SpeechRequest -> Upstream)
    requires Set(config.apiKey)
    ensures var url := Handle(config, text, speak).call.value.url;
      StartsWith(url, TextToSpeechEndpoint) && url[|TextToSpeechEndpoint|..] == VoiceId(config)
  {
  }

  /**
   * Audio is answered exactly when a key is set and the service succeeds, and
   * then the bytes are the service's own; every failure is a JSON error.
   */
  lemma AudioOnlyOnSuccess(config: Config, text: Option<string>, speak: SpeechRequest -> Upstream)
    ensures var h := Handle(config, text, speak);
      h.response.Audio? <==> h.call.Some? && speak(h.call.value).ok
  {
  }
}
