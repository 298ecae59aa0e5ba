/**
 * The `_abck` bot-protection cookie the Woolworths requests need, found in the cookie
 * list a headless browser collects, and the request header that carries it.
 * The browser session itself is outside the model: its cookie list is an input.
 */
module Cookies {
  import opened Wrappers

  datatype Cookie = Cookie(name: string, value: string)

  const AbckName: string := "_abck"

  const UserAgent: string := "Mozilla/5.0 (Windows NT 10.0; Win64; x64) AppleWebKit/537.36 (KHTML, like Gecko) Chrome/111.0.0.0 Safari/537.36"

  /** The value of the first cookie named `_abck`, if there is one. */
  function FirstAbck(cookies: seq<Cookie>): Option<string>
    decreases |cookies|
  {
    if cookies == [] then None
    else if cookies[0].name == AbckName then Some(cookies[0].value)
    else FirstAbck(cookies[1..])
  }

  /** `FirstAbck` finds a value exactly when some cookie is named `_abck`, and then the
      value is that of the first such cookie. */
  lemma {:induction false} FirstAbckIsFirst(cookies: seq<Cookie>)
    ensures FirstAbck(cookies).Some? <==> exists i :: 0 <= i < |cookies| && cookies[i].name == AbckName
    ensures forall i ::
      (0 <= i < |cookies| && cookies[i].name == AbckName && forall j :: 0 <= j < i ==> cookies[j].name != AbckName)
      ==> FirstAbck(cookies) == Some(cookies[i].value)
    decreases |cookies|
  {
    if cookies != [] && cookies[0].name != AbckName {
      var rest := cookies[1..];
      FirstAbckIsFirst(rest);
      forall i | 0 <= i < |cookies| && cookies[i].name == AbckName
        ensures exists j :: 0 <= j < |rest| && rest[j].name == AbckName
      {
        assert rest[i - 1] == cookies[i];
      }
      forall i | 0 <= i < |cookies| && cookies[i].name == AbckName &&
        (forall j :: 0 <= j < i ==> cookies[j].name != AbckName)
        ensures FirstAbck(cookies) == Some(cookies[i].value)
      {
        assert rest[i - 1] == cookies[i];
        assert forall j :: 0 <= j < i - 1 ==> rest[j] == cookies[j + 1];
      }
    }
  }

  /** The search loop of `_get_cookie`: the first `_abck` cookie's value, or '' when the
      loop finishes without finding one. */
  method FindAbck(cookies: seq<Cookie>) returns (cookie: string)
    ensures cookie == FirstAbck(cookies).GetOr("")
  {
    cookie := "";
    var i := 0;
    while i < |cookies|
      invariant 0 <= i <= |cookies|
      invariant FirstAbck(cookies) == FirstAbck(cookies[i..])
      invariant cookie == ""
    {
      if cookies[i].name == AbckName {
        cookie := cookies[i].value;
        break;
      }
      assert cookies[i..][1..] == cookies[i + 1..];
      i := i + 1;
    }
  }

  /** What a Python variable that first holds '' and is then reused as the loop variable
      over the cookie dicts ends up holding: a string, or one cookie dict. */
  datatype Binding = Str(text: string) | Dict(cookie: Cookie)

  /** The search loop of the variant whose loop variable is also the result: a found
      `_abck` gives its value, an empty list leaves '', and an unsuccessful search over a
      non-empty list leaves the last cookie dict bound instead of ''. */
  method FindAbckRebinding(cookies: seq<Cookie>) returns (cookie: Binding)
    ensures FirstAbck(cookies).Some? ==> cookie == Str(FirstAbck(cookies).value)
    ensures FirstAbck(cookies).None? && cookies == [] ==> cookie == Str("")
    ensures FirstAbck(cookies).None? && cookies != [] ==> cookie == Dict(cookies[|cookies| - 1])
  {
    cookie := Str("");
    var i := 0;
    while i < |cookies|
      invariant 0 <= i <= |cookies|
      invariant FirstAbck(cookies) == FirstAbck(cookies[i..])
      invariant cookie == if i == 0 then Str("") else Dict(cookies[i - 1])
    {
      cookie := Dict(cookies[i]);
      if cookie.cookie.name == AbckName {
        cookie := Str(cookie.cookie.value);
        break;
      }
      assert cookies[i..][1..] == cookies[i + 1..];
      i := i + 1;
    }
  }

  /** Python's `str()` of a cookie dict, over the two keys modelled. */
  function DictText(c: Cookie): string {
    "{'name': '" + c.name + "', 'value': '" + c.value + "'}"
  }

  /** The text an f-string renders for the binding. */
  function Render(b: Binding): string {
    match b
    case Str(s) => s
    case Dict(c) => DictText(c)
  }

  /** The request header built around the cookie value (`_create_header`). */
  function CookieHeader(value: string): map<string, string> {
    map["content-type" := "application/json", "cookie" := "_abck=" + value, "user-agent" := UserAgent]
  }

  /** The header's cookie entry is `_abck=` followed by exactly the value it was given. */
  lemma CookieHeaderCarriesValue(value: string)
    ensures CookieHeader(value).Keys == {"content-type", "cookie", "user-agent"}
    ensures var c := CookieHeader(value)["cookie"];
      |c| == 6 + |value| && c[..6] == "_abck=" && c[6..] == value
  {
  }

  /** `_create_header` of the variants whose search returns '' when nothing is found:
      one browser session's cookies give the header carrying the first `_abck` value. */
  method CreateHeader(cookies: seq<Cookie>) returns (header: map<string, string>)
    ensures header == CookieHeader(FirstAbck(cookies).GetOr(""))
  {
    var cookie := FindAbck(cookies);
    header := CookieHeader(cookie);
  }
}
