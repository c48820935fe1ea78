/** The request headers: the custom "-H" strings parsed in main, and the default headers
    the scanner's session starts from, overridden by the custom ones. */
module Cli {
  import opened Text

  datatype Option<T> = None | Some(value: T)

  /** header.split(':', 1) with both halves stripped, or None for a string without ':'
      (which main skips with a warning). */
  function SplitHeader(h: string): (r: Option<(string, string)>)
    ensures r.None? <==> ':' !in h
  {
    var k := IndexOf(h, ':');
    if k == |h| then None else Some((Strip(h[..k]), Strip(h[k + 1..])))
  }

  /** Whether header string h sets the given key. */
  predicate SetsKey(h: string, key: string) {
    SplitHeader(h).Some? && SplitHeader(h).value.0 == key
  }

  /** The headers dict main builds from the "-H" strings, in order. */
  function HeaderMap(hs: seq<string>): map<string, string> {
    if hs == [] then map[]
    else
      var m := HeaderMap(hs[..|hs| - 1]);
      match SplitHeader(hs[|hs| - 1])
      case None => m
      case Some((key, value)) => m[key := value]
  }

  /** The header-parsing loop of main. */
  method ParseHeaders(hs: seq<string>) returns (headers: map<string, string>)
    ensures headers == HeaderMap(hs)
    ensures forall key :: key in headers <==> exists i :: 0 <= i < |hs| && SetsKey(hs[i], key)
  {
    headers := map[];
    for i := 0 to |hs|
      invariant headers == HeaderMap(hs[..i])
    {
      assert hs[..i + 1][..i] == hs[..i];
      var header := hs[i];
      if ':' in header {
        var (key, value) := SplitHeader(header).value;
        headers := headers[key := value];
      }
    }
    assert hs[..|hs|] == hs;
    forall key
      ensures key in headers <==> exists i :: 0 <= i < |hs| && SetsKey(hs[i], key)
    {
      HeaderMapKeys(hs, key);
    }
  }

  /** A well-formed header "key:value" (the key without ':') splits back into its key and
      value, each stripped; any ':' in the value stays in the value. */
  lemma SplitHeaderJoin(key: string, value: string)
    requires ':' !in key
    ensures SplitHeader(key + ":" + value) == Some((Strip(key), Strip(value)))
  {
    var h := key + ":" + value;
    assert h[|key|] == ':';
    assert forall i :: 0 <= i < |key| ==> h[i] == key[i];
    var k := IndexOf(h, ':');
    assert k == |key|;
    assert h[..k] == key;
    assert h[k + 1..] == value;
  }

  /** A key is present exactly when some header string sets it. */
  lemma {:induction false} HeaderMapKeys(hs: seq<string>, key: string)
    ensures key in HeaderMap(hs) <==> exists i :: 0 <= i < |hs| && SetsKey(hs[i], key)
  {
    if hs != [] {
      var init, last := hs[..|hs| - 1], hs[|hs| - 1];
      HeaderMapKeys(init, key);
      HeaderMapSnocKey(hs, key);
      if key in HeaderMap(hs) {
        if !SetsKey(last, key) {
          var i :| 0 <= i < |init| && SetsKey(init[i], key);
          assert hs[i] == init[i];
        }
      } else {
        forall i | 0 <= i < |hs|
          ensures !SetsKey(hs[i], key)
        {
          if i < |init| {
            assert hs[i] == init[i];
          }
        }
      }
    }
  }

  lemma HeaderMapSnocKey(hs: seq<string>, key: string)
    requires hs != []
    ensures key in HeaderMap(hs) <==> key in HeaderMap(hs[..|hs| - 1]) || SetsKey(hs[|hs| - 1], key)
  {
  }

  /** The last header string setting a key decides its value: later headers with the same
      key overwrite earlier ones, and malformed strings change nothing. */
  lemma {:induction false} HeaderMapLastWins(hs: seq<string>, i: nat, key: string, value: string)
    requires i < |hs|
    requires SplitHeader(hs[i]) == Some((key, value))
    requires forall j :: i < j < |hs| ==> !SetsKey(hs[j], key)
    ensures key in HeaderMap(hs) && HeaderMap(hs)[key] == value
  {
    var init := hs[..|hs| - 1];
    if i < |hs| - 1 {
      assert !SetsKey(hs[|hs| - 1], key);
      forall j | i < j < |init|
        ensures !SetsKey(init[j], key)
      {
        assert init[j] == hs[j];
      }
      HeaderMapLastWins(init, i, key, value);
    }
  }

  /** The default User-Agent of the scanner's session. */
  const DefaultUserAgent: string :=
    "Mozilla/5.0 (Windows NT 10.0; Win64; x64) AppleWebKit/537.36 (KHTML, like Gecko) Chrome/120.0.0.0 Safari/537.36"

  /** The default headers; an empty user agent (or none given) selects the default one. */
  function DefaultHeaders(userAgent: string): map<string, string> {
    map[
      "User-Agent" := if userAgent != [] then userAgent else DefaultUserAgent,
      "Accept" := "text/html,application/xhtml+xml,application/xml;q=0.9,image/webp,*/*;q=0.8",
      "Accept-Language" := "en-US,en;q=0.5",
      "Accept-Encoding" := "gzip, deflate",
      "Connection" := "keep-alive",
      "Upgrade-Insecure-Requests" := "1"
    ]
  }

  /** The headers the session sends: the defaults updated with the custom headers. */
  function SessionHeaders(userAgent: string, custom: map<string, string>): (r: map<string, string>)
    ensures r.Keys == DefaultHeaders(userAgent).Keys + custom.Keys
    ensures forall k :: k in custom ==> r[k] == custom[k]
    ensures forall k :: k in DefaultHeaders(userAgent) && k !in custom ==> r[k] == DefaultHeaders(userAgent)[k]
  {
    DefaultHeaders(userAgent) + custom
  }

  /** Unless a custom header overrides it, the User-Agent is the one given, or the default
      one when none is given. */
  lemma SessionUserAgent(userAgent: string, custom: map<string, string>)
    requires "User-Agent" !in custom
    ensures var r := SessionHeaders(userAgent, custom);
      && "User-Agent" in r
      && r["User-Agent"] == (if userAgent == [] then DefaultUserAgent else userAgent)
  {
  }
}
