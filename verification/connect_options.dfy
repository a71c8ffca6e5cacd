/** The positional argument of the connect command
    (`RPC::Client::Connect::OptionParser`): `HOST:PORT/TOKEN`, split on
    '/' with Ruby's `String#split`. */
module ConnectOptions {
  import opened Wrappers
  import Strings

  datatype Target = Target(url: Option<string>, token: Option<string>)

  /** `@url, @token = instance.split('/')`: the first two pieces, `nil`
      for a piece that is not there. */
  function SplitInstance(instance: string): (t: Target)
    ensures t.url.Some? ==> '/' !in t.url.value
    ensures t.token.Some? ==> '/' !in t.token.value
    ensures t.token.Some? ==> t.url.Some?
    ensures '/' !in instance ==> t == Target(if instance == "" then None else Some(instance), None)
    ensures var fs := Strings.Fields(instance, '/');
            && (t.url.Some? ==> t.url.value == fs[0])
            && (t.token.Some? ==> |fs| > 1 && t.token.value == fs[1])
            && (t.token.None? ==> forall i | 1 <= i < |fs| :: fs[i] == "")
  {
    var pieces := Strings.Split(instance, '/');
    assert '/' !in instance ==> Strings.Fields(instance, '/') == [instance] by {
      if '/' !in instance {
        Strings.FieldsJoin([instance], '/');
        assert Strings.Join([instance], ['/']) == instance;
      }
    }
    Target(
      if |pieces| >= 1 then Some(pieces[0]) else None,
      if |pieces| >= 2 then Some(pieces[1]) else None)
  }

  /** `after_parse`: with no argument `ARGV.shift` is `nil` and calling
      `split` on it raises `NoMethodError`, which ends the program with
      status 1. */
  function AfterParse(args: seq<string>): (r: Result<Target>)
    ensures r.Failure? <==> |args| == 0
    ensures r.Ok? ==> r.value == SplitInstance(args[0])
  {
    if |args| == 0 then Failure("undefined method `split' for nil", 1)
    else Ok(SplitInstance(args[0]))
  }

  /** `url + "/" + token` splits back into the url and the token; pieces
      after a further '/' are dropped. */
  lemma SplitRoundTrip(url: string, token: string, extra: string)
    requires '/' !in url && '/' !in token && token != ""
    ensures SplitInstance(url + "/" + token) == Target(Some(url), Some(token))
    ensures SplitInstance(url + "/" + token + "/" + extra) == Target(Some(url), Some(token))
  {
    SplitPair(url, token);
    SplitLonger(url, token, extra);
  }

  lemma SplitPair(url: string, token: string)
    requires '/' !in url && '/' !in token && token != ""
    ensures Strings.Split(url + "/" + token, '/') == [url, token]
  {
    Strings.FieldsAppend(url, token, '/');
    assert Strings.Fields(token, '/') == [token] by {
      Strings.FieldsJoin([token], '/');
    }
    assert url + "/" + token == url + ['/'] + token;
  }

  lemma SplitLonger(url: string, token: string, extra: string)
    requires '/' !in url && '/' !in token && token != ""
    ensures var ps := Strings.Split(url + "/" + token + "/" + extra, '/');
            |ps| >= 2 && ps[0] == url && ps[1] == token
  {
    Strings.FieldsAppend(token, extra, '/');
    Strings.FieldsAppend(url, token + "/" + extra, '/');
    assert url + "/" + token + "/" + extra == url + ['/'] + (token + ['/'] + extra);
    var fs := Strings.Fields(url + "/" + token + "/" + extra, '/');
    assert fs[0] == url && fs[1] == token;
    var r := Strings.DropTrailingEmpty(fs);
    assert |r| >= 2;
  }

  /** A trailing '/' leaves no token: `"h:p/"` has a `nil` token. */
  lemma TrailingSlashDropsToken(url: string)
    requires '/' !in url && url != ""
    ensures SplitInstance(url + "/") == Target(Some(url), None)
  {
    Strings.FieldsAppend(url, "", '/');
    assert url + "/" == url + ['/'] + "";
    var fs := Strings.Fields(url + "/", '/');
    assert fs == [url, ""];
    assert Strings.DropTrailingEmpty(fs) == Strings.DropTrailingEmpty([url]) == [url];
  }
}
