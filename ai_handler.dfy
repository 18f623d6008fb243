/**
 * The translation back ends: provider selection, the proxy settings, and the two
 * translate functions, which build the prompt and run the retry loop against the
 * remote model, an oracle giving the outcome of each attempt.
 */
module AiHandler {
  import opened Common
  import opened Units
  import opened Prompts
  import opened Retries

  /** The message of the `ValueError` `get_translator_func` raises. */
  const InvalidProvider: string := "Invalid AI provider" + " specified."

  /** `get_translator_func(provider)`: the translator for a known provider name, else `ValueError`. */
  function GetTranslatorFunc(provider: string): (r: Result<Provider, string>)
    ensures r.Success? <==> provider == "gemini" || provider == "deepseek"
    ensures r.Success? ==> ProviderName(r.value) == provider
    ensures r.Failure? ==> r.error == InvalidProvider
  {
    if provider == "gemini" then Success(Gemini)
    else if provider == "deepseek" then Success(DeepSeek)
    else Failure(InvalidProvider)
  }

  // ----------------------------------------------------------------- set_proxy

  /** Python truthiness of the optional proxy URL. */
  predicate Truthy(url: Option<string>) {
    url.Some? && url.value != ""
  }

  /** The environment after `set_proxy`, and the `proxies` mapping it returns. */
  datatype ProxySetting = ProxySetting(env: map<string, string>, proxies: Option<map<string, string>>)

  /**
   * `set_proxy(proxy_url)`: a URL is put in both `http_proxy` and `https_proxy` and
   * returned for both schemes; no URL removes both variables and returns `None`.
   * No other variable changes.
   */
  function SetProxy(env: map<string, string>, url: Option<string>): (r: ProxySetting)
    ensures forall k :: k != "http_proxy" && k != "https_proxy" ==>
      (k in r.env <==> k in env) && (k in env ==> r.env[k] == env[k])
    ensures Truthy(url) ==>
      && "http_proxy" in r.env && r.env["http_proxy"] == url.value
      && "https_proxy" in r.env && r.env["https_proxy"] == url.value
      && r.proxies == Some(map["http" := url.value, "https" := url.value])
    ensures !Truthy(url) ==> "http_proxy" !in r.env && "https_proxy" !in r.env && r.proxies == None
  {
    if Truthy(url) then
      ProxySetting(env["http_proxy" := url.value]["https_proxy" := url.value],
                   Some(map["http" := url.value, "https" := url.value]))
    else
      ProxySetting(env - {"http_proxy", "https_proxy"}, None)
  }

  /**
   * What a translate function is asked; the prompt it sends for it is
   * `Prompt(text, style, targetLang, "auto", detect)`.
   */
  datatype Request = Request(text: string, style: string, targetLang: string)

  /**
   * The remote model: the outcomes of the attempts of the k-th translator call,
   * given the request its prompt is rendered from.
   */
  type Network = (nat, Request) -> (nat -> Attempt)

  /** `translate_gemini`, as the k-th call: set the proxy, then run the retry loop on the request's prompt. */
  method TranslateGemini(k: nat, text: string, style: string, targetLang: string, proxyUrl: Option<string>,
                         env: map<string, string>, net: Network)
    returns (reply: Reply, c: Call, envAfter: map<string, string>)
    ensures envAfter == SetProxy(env, proxyUrl).env
    ensures c == Retry(Gemini, text, net(k, Request(text, style, targetLang)), 0)
    ensures reply == ReplyOf(c.exit) && reply.Done?
  {
    envAfter := SetProxy(env, proxyUrl).env;
    c := RetryLoop(Gemini, text, net(k, Request(text, style, targetLang)));
    reply := ReplyOf(c.exit);
  }

  /** `translate_deepseek`, as the k-th call: the same steps, with DeepSeek's pace and failure handling. */
  method TranslateDeepSeek(k: nat, text: string, style: string, targetLang: string, proxyUrl: Option<string>,
                           env: map<string, string>, net: Network)
    returns (reply: Reply, c: Call, envAfter: map<string, string>, proxies: Option<map<string, string>>)
    ensures envAfter == SetProxy(env, proxyUrl).env && proxies == SetProxy(env, proxyUrl).proxies
    ensures c == Retry(DeepSeek, text, net(k, Request(text, style, targetLang)), 0)
    ensures reply == ReplyOf(c.exit)
  {
    var setting := SetProxy(env, proxyUrl);
    envAfter, proxies := setting.env, setting.proxies;
    c := RetryLoop(DeepSeek, text, net(k, Request(text, style, targetLang)));
    reply := ReplyOf(c.exit);
  }

  /** The translate function a handler is given: the reply of the provider's loop to its k-th call. */
  function Translator(p: Provider, style: string, targetLang: string, net: Network): (r: Translate)
    ensures forall k: nat, text: string :: r(k, text).Raised? ==> p == DeepSeek
  {
    OnlyDeepSeekRaises(p, style, targetLang, net);
    (k: nat, text: string) => ReplyOf(Retry(p, text, net(k, Request(text, style, targetLang)), 0).exit)
  }

  lemma OnlyDeepSeekRaises(p: Provider, style: string, targetLang: string, net: Network)
    ensures forall k: nat, text: string :: ReplyOf(Retry(p, text, net(k, Request(text, style, targetLang)), 0).exit).Raised? ==> p == DeepSeek
  {
    forall k: nat, text: string ensures ReplyOf(Retry(p, text, net(k, Request(text, style, targetLang)), 0).exit).Raised? ==> p == DeepSeek {
      var c := Retry(p, text, net(k, Request(text, style, targetLang)), 0);
      assert c.exit.Escaped? ==> p == DeepSeek;
    }
  }

  /** Gemini's translate function never raises: every failure becomes a marked reply. */
  lemma GeminiTranslatorNeverRaises(style: string, targetLang: string, net: Network, k: nat, text: string)
    ensures Translator(Gemini, style, targetLang, net)(k, text).Done?
  {
    var c := Retry(Gemini, text, net(k, Request(text, style, targetLang)), 0);
    assert !c.exit.Escaped?;
  }

  /** `set_proxy` twice with the same URL leaves what once leaves. */
  lemma SetProxyIdempotent(env: map<string, string>, url: Option<string>)
    ensures SetProxy(SetProxy(env, url).env, url) == SetProxy(env, url)
  {
    var once := SetProxy(env, url);
    var twice := SetProxy(once.env, url);
    assert twice.env.Keys == once.env.Keys;
  }

}
