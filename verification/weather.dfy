/**
  The sentence `get_weather(city)` hands back to be spoken.  Only the
  choice between its four branches is modelled: no key configured, an
  HTTP 200 answer, another status code, or an exception.  The request
  itself is abstracted into `Http`, the outcome it would have.
 */
module Weather {
  import opened Common
  import opened Text

  /** The two fields read out of a successful JSON answer; the temperature arrives already rendered. */
  datatype Reading = Reading(description: string, temperature: string)

  /**
    The outcome of the request: `Raised` when the request or the JSON
    decoding raised; otherwise the status code and, when the body had
    `main.temp` and `weather[0].description`, those fields.
   */
  datatype Http = Raised | Response(status: int, reading: Option<Reading>)

  /** The sentence to speak, and whether a request was sent at all. */
  datatype Report = Report(sentence: string, requested: bool)

  const NoKeySentence: string :=
    "I'd love to help with weather, but I need a weather API key. For now, I can help with many other topics!"

  const TroubleSentence: string :=
    "I'm having trouble getting weather info right now, but I'm here to chat about anything else!"

  const OkStatus: int := 200

  /** Python truthiness of the key: `None` and the empty string count as missing. */
  predicate HasKey(key: Option<string>) {
    key.Some? && key.value != []
  }

  function ForecastSentence(city: string, rd: Reading): string {
    "The weather in " + city + " is " + rd.description + " with a temperature of " + rd.temperature + "°F."
  }

  function UnavailableSentence(city: string): string {
    "I couldn't get weather information for " + city + ", but I can help with many other things!"
  }

  /** `get_weather(city)` with configured key `key`, when the request would end in `fetch`. */
  function GetWeather(key: Option<string>, city: string, fetch: Http): (r: Report)
    ensures !HasKey(key) ==> r == Report(NoKeySentence, false)
    ensures HasKey(key) ==> r.requested
    ensures r.sentence != []
    ensures HasKey(key) && fetch.Raised? ==> r.sentence == TroubleSentence
    ensures HasKey(key) && fetch.Response? && fetch.status == OkStatus && fetch.reading.None?
      ==> r.sentence == TroubleSentence
    ensures HasKey(key) && fetch.Response? && fetch.status == OkStatus && fetch.reading.Some?
      ==> r.sentence == ForecastSentence(city, fetch.reading.value)
    ensures HasKey(key) && fetch.Response? && fetch.status != OkStatus
      ==> r.sentence == UnavailableSentence(city)
  {
    if !HasKey(key) then Report(NoKeySentence, false)
    else match fetch
      case Raised => Report(TroubleSentence, true)
      case Response(status, reading) =>
        if status == OkStatus then
          match reading
          case Some(rd) => Report(ForecastSentence(city, rd), true)
          case None => Report(TroubleSentence, true)
        else Report(UnavailableSentence(city), true)
  }

  /**
    Whenever the service answered with a status, the sentence names the
    city asked about; on a 200 answer it also carries the description.
   */
  lemma ReportNamesCity(key: Option<string>, city: string, fetch: Http)
    requires HasKey(key) && fetch.Response?
    requires fetch.status != OkStatus || fetch.reading.Some?
    ensures Contains(GetWeather(key, city, fetch).sentence, city)
    ensures fetch.status == OkStatus ==>
      Contains(GetWeather(key, city, fetch).sentence, fetch.reading.value.description)
  {
    if fetch.status == OkStatus {
      var rd := fetch.reading.value;
      var tail := " is " + rd.description + " with a temperature of " + rd.temperature + "°F.";
      ContainsInfix("The weather in ", city, tail);
      assert ForecastSentence(city, rd) == "The weather in " + city + tail;
      ContainsInfix("The weather in " + city + " is ", rd.description,
        " with a temperature of " + rd.temperature + "°F.");
      assert ForecastSentence(city, rd)
        == "The weather in " + city + " is " + rd.description + (" with a temperature of " + rd.temperature + "°F.");
    } else {
      ContainsInfix("I couldn't get weather information for ", city,
        ", but I can help with many other things!");
      assert UnavailableSentence(city)
        == "I couldn't get weather information for " + city + ", but I can help with many other things!";
    }
  }

  /**
    With a key, the trouble sentence is spoken exactly when the request
    raised or a 200 answer lacked its fields: the forecast and the
    unavailable sentence never coincide with it, whatever the city.
   */
  lemma TroubleExactlyOnFailure(key: Option<string>, city: string, fetch: Http)
    requires HasKey(key)
    ensures GetWeather(key, city, fetch).sentence == TroubleSentence
      <==> fetch.Raised? || (fetch.status == OkStatus && fetch.reading.None?)
  {
    var r := GetWeather(key, city, fetch);
    if fetch.Response? && fetch.status == OkStatus && fetch.reading.Some? {
      assert r.sentence[|r.sentence| - 1] == '.';
      assert TroubleSentence[|TroubleSentence| - 1] == '!';
    } else if fetch.Response? && fetch.status != OkStatus {
      assert r.sentence[|r.sentence| - 2] == 's';
      assert TroubleSentence[|TroubleSentence| - 2] == 'e';
    }
  }
}
