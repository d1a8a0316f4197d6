/**
 * The two pieces of BaseFragment with behaviour of their own: filling the
 * query template of a deep link from an argument bundle (getUriWithArgs) and
 * choosing the message for a failed request (getErrorMessage).
 */
module BaseFragment {
  import opened Wrappers
  import JavaText

  // ---------------------------------------------------------------------------
  // getUriWithArgs
  // ---------------------------------------------------------------------------

  /**
   * Where getUriWithArgs throws ArrayIndexOutOfBoundsException: a link made only
   * of '?' splits into nothing, and a template pair made only of '=' has no key.
   */
  datatype UriError = LinkWithoutParts | PairWithoutKey(pair: string)

  /** The key of a template pair: the text before its first '=', or None when the pair is only '='. */
  function Key(pair: string): Option<string>
  {
    if pair != "" && JavaText.AllChar(pair, '=') then None else Some(JavaText.BeforeFirst(pair, '='))
  }

  /** Key is what `pair.split("=")[0]` reads, and None exactly where that split has no element. */
  lemma KeyOfSplit(pair: string)
    ensures Key(pair).None? <==> |JavaText.Split(pair, '=')| == 0
    ensures Key(pair).Some? ==> Key(pair).value == JavaText.Split(pair, '=')[0]
  {
    JavaText.SplitEmptyIff(pair, '=');
    if |JavaText.Split(pair, '=')| > 0 {
      JavaText.SplitFirst(pair, '=');
    }
  }

  /**
   * What template pair i adds to the query: nothing when the bundle has no
   * value for its key, otherwise key=encode(value), followed by '&' unless it
   * is the template's last pair.
   */
  function Contribution(pairs: seq<string>, i: nat, args: map<string, string>, encode: string -> string): string
    requires i < |pairs| && Key(pairs[i]).Some?
  {
    var key := Key(pairs[i]).value;
    if key !in args then ""
    else key + "=" + encode(args[key]) + (if i != |pairs| - 1 then "&" else "")
  }

  /** The query built from the first n template pairs, or the error the first keyless pair raises. */
  function Query(pairs: seq<string>, n: nat, args: map<string, string>, encode: string -> string): Result<string, UriError>
    requires n <= |pairs|
  {
    if n == 0 then Ok("")
    else
      match Query(pairs, n - 1, args, encode)
      case Err(e) => Err(e)
      case Ok(q) =>
        if Key(pairs[n - 1]).None? then Err(PairWithoutKey(pairs[n - 1]))
        else Ok(q + Contribution(pairs, n - 1, args, encode))
  }

  /** The template pairs: the last '?'-segment of the link split on '&'. */
  function TemplatePairs(parts: seq<string>): seq<string>
    requires |parts| > 0
  {
    JavaText.Split(parts[|parts| - 1], '&')
  }

  /** The link part, '?' and the query; or the query's error. */
  function WithLink(linkPart: string, query: Result<string, UriError>): Result<string, UriError>
  {
    match query
    case Err(e) => Err(e)
    case Ok(q) => Ok(linkPart + "?" + q)
  }

  /**
   * What getUriWithArgs returns (before Uri.parse): the link unchanged when it
   * has no query part, otherwise the text before the first '?', a '?', and the
   * query built from the template.
   */
  function UriWithArgs(uri: string, args: map<string, string>, encode: string -> string): Result<string, UriError>
  {
    var parts := JavaText.Split(uri, '?');
    if |parts| == 1 then Ok(uri)
    else if |parts| == 0 then Err(LinkWithoutParts)
    else
      var pairs := TemplatePairs(parts);
      WithLink(parts[0], Query(pairs, |pairs|, args, encode))
  }

  /** getUriWithArgs: splits off the link part and the template, then fills it in. */
  method GetUriWithArgs(uri: string, argsBundle: map<string, string>, encode: string -> string)
    returns (r: Result<string, UriError>)
    ensures r == UriWithArgs(uri, argsBundle, encode)
  {
    var parts := JavaText.Split(uri, '?');
    if |parts| == 1 {
      return Ok(uri);
    }
    if |parts| == 0 {
      return Err(LinkWithoutParts);
    }
    var linkPart := parts[0];
    var pairs := TemplatePairs(parts);
    r := FillTemplate(linkPart, pairs, argsBundle, encode);
  }

  /** The StringBuilder loop of getUriWithArgs: appends each filled pair after the link part and '?'. */
  method FillTemplate(linkPart: string, pairs: seq<string>, argsBundle: map<string, string>, encode: string -> string)
    returns (r: Result<string, UriError>)
    ensures r == WithLink(linkPart, Query(pairs, |pairs|, argsBundle, encode))
  {
    var query := "";
    for i := 0 to |pairs|
      invariant Query(pairs, i, argsBundle, encode) == Ok(query)
    {
      var pair := pairs[i];
      var k := KeyOfPair(pair);
      if k.None? {
        QueryErrorSticks(pairs, i + 1, |pairs|, argsBundle, encode);
        return Err(PairWithoutKey(pair));
      }
      var key := k.value;
      if key !in argsBundle {
        assert query + Contribution(pairs, i, argsBundle, encode) == query;
        continue;
      }
      var appended := key + "=" + encode(argsBundle[key]);
      if i != |pairs| - 1 {
        appended := appended + "&";
      }
      assert appended == Contribution(pairs, i, argsBundle, encode);
      query := query + appended;
    }
    return Ok(linkPart + "?" + query);
  }

  /** `pair.split("=")[0]`, or None where that index is out of bounds. */
  method KeyOfPair(pair: string) returns (key: Option<string>)
    ensures key == Key(pair)
  {
    var keyParts := JavaText.Split(pair, '=');
    KeyOfSplit(pair);
    if |keyParts| == 0 {
      return None;
    }
    return Some(keyParts[0]);
  }

  /** Once a keyless pair has raised its error, the later pairs keep it. */
  lemma {:induction false} QueryErrorSticks(pairs: seq<string>, n: nat, m: nat, args: map<string, string>, encode: string -> string)
    requires n <= m <= |pairs|
    requires Query(pairs, n, args, encode).Err?
    ensures Query(pairs, m, args, encode) == Query(pairs, n, args, encode)
    decreases m - n
  {
    if n < m {
      QueryErrorSticks(pairs, n, m - 1, args, encode);
    }
  }

  /** The query fails exactly when one of the first n pairs is made only of '='. */
  lemma {:induction false} QueryErrorIff(pairs: seq<string>, n: nat, args: map<string, string>, encode: string -> string)
    requires n <= |pairs|
    ensures Query(pairs, n, args, encode).Err? <==> exists i :: 0 <= i < n && Key(pairs[i]).None?
  {
    if n > 0 {
      QueryErrorIff(pairs, n - 1, args, encode);
    }
  }

  /** A link without '?' comes back unchanged, whatever the bundle holds. */
  lemma NoQueryUnchanged(uri: string, args: map<string, string>, encode: string -> string)
    requires '?' !in uri
    ensures UriWithArgs(uri, args, encode) == Ok(uri)
  {
  }

  /**
   * A link whose '?'s all sit at its end also comes back unchanged: split
   * drops the trailing empty segments, leaving a single part.
   */
  lemma TrailingQuestionMarksUnchanged(link: string, k: nat, args: map<string, string>, encode: string -> string)
    requires '?' !in link && link != "" && k >= 1
    ensures UriWithArgs(link + seq(k, _ => '?'), args, encode) == Ok(link + seq(k, _ => '?'))
  {
    JavaText.SplitTrailingSeparators(link, k, '?');
  }

  /** getUriWithArgs fails exactly on a link made only of '?' or on a template pair made only of '='. */
  lemma UriErrorIff(uri: string, args: map<string, string>, encode: string -> string)
    ensures var parts := JavaText.Split(uri, '?');
      UriWithArgs(uri, args, encode).Err? <==>
        (uri != "" && JavaText.AllChar(uri, '?'))
        || (|parts| >= 2 && exists i :: 0 <= i < |TemplatePairs(parts)| && Key(TemplatePairs(parts)[i]).None?)
  {
    var parts := JavaText.Split(uri, '?');
    JavaText.SplitEmptyIff(uri, '?');
    if |parts| >= 2 {
      var pairs := TemplatePairs(parts);
      QueryErrorIff(pairs, |pairs|, args, encode);
    }
  }

  /**
   * A link with a query part becomes the text before its first '?', then '?',
   * then the query built from the template in its last '?'-segment (or fails
   * with that query's error).
   */
  lemma FilledLinkShape(uri: string, args: map<string, string>, encode: string -> string)
    requires |JavaText.Split(uri, '?')| >= 2
    ensures var pairs := TemplatePairs(JavaText.Split(uri, '?'));
      UriWithArgs(uri, args, encode) == WithLink(JavaText.BeforeFirst(uri, '?'), Query(pairs, |pairs|, args, encode))
  {
    JavaText.SplitFirst(uri, '?');
  }

  /** The pair a template pair with a value becomes. */
  function Filled(pairs: seq<string>, i: nat, args: map<string, string>, encode: string -> string): string
    requires i < |pairs| && Key(pairs[i]).Some? && Key(pairs[i]).value in args
  {
    Key(pairs[i]).value + "=" + encode(args[Key(pairs[i]).value])
  }

  /** Every template pair has a key and the bundle a value for it. */
  predicate AllFilled(pairs: seq<string>, args: map<string, string>)
  {
    forall i :: 0 <= i < |pairs| ==> Key(pairs[i]).Some? && Key(pairs[i]).value in args
  }

  /** The first n template pairs, filled. */
  function FilledPairs(pairs: seq<string>, n: nat, args: map<string, string>, encode: string -> string): (r: seq<string>)
    requires n <= |pairs| && AllFilled(pairs, args)
    ensures |r| == n
  {
    if n == 0 then [] else FilledPairs(pairs, n - 1, args, encode) + [Filled(pairs, n - 1, args, encode)]
  }

  /**
   * When the bundle has a value for every template key, the query is the
   * filled pairs in template order joined by '&' (while more pairs follow,
   * the query so far ends in '&').
   */
  lemma {:induction false} QueryAllFilled(pairs: seq<string>, n: nat, args: map<string, string>, encode: string -> string)
    requires 0 < n <= |pairs|
    requires AllFilled(pairs, args)
    ensures Query(pairs, n, args, encode) ==
      Ok(JavaText.Join(FilledPairs(pairs, n, args, encode), '&') + (if n < |pairs| then "&" else ""))
  {
    var last := Filled(pairs, n - 1, args, encode);
    var amp := if n < |pairs| then "&" else "";
    assert Key(pairs[n - 1]).Some? && Key(pairs[n - 1]).value in args;
    if n == 1 {
      assert FilledPairs(pairs, n, args, encode) == [last];
      assert Query(pairs, 0, args, encode) == Ok("");
      FilledStep(pairs, n, args, encode);
      assert "" + (last + amp) == last + amp;
    } else {
      var init := FilledPairs(pairs, n - 1, args, encode);
      QueryAllFilled(pairs, n - 1, args, encode);
      FilledStep(pairs, n, args, encode);
      JoinSnoc(init, last, '&');
      var joined := JavaText.Join(init, '&');
      assert (joined + "&") + (last + amp) == ((joined + "&") + last) + amp;
    }
  }

  /** One more filled pair: the query grows by key=value and, unless it is the last pair, '&'. */
  lemma FilledStep(pairs: seq<string>, n: nat, args: map<string, string>, encode: string -> string)
    requires 0 < n <= |pairs|
    requires Key(pairs[n - 1]).Some? && Key(pairs[n - 1]).value in args
    requires Query(pairs, n - 1, args, encode).Ok?
    ensures Query(pairs, n, args, encode) ==
      Ok(Query(pairs, n - 1, args, encode).value + (Filled(pairs, n - 1, args, encode) + if n < |pairs| then "&" else ""))
  {
  }

  lemma {:induction false} JoinSnoc(parts: seq<string>, last: string, c: char)
    requires |parts| >= 1
    ensures JavaText.Join(parts + [last], c) == JavaText.Join(parts, c) + [c] + last
    decreases |parts|
  {
    if |parts| > 1 {
      assert (parts + [last])[1..] == parts[1..] + [last];
      JoinSnoc(parts[1..], last, c);
    } else {
      assert (parts + [last])[1..] == [last];
    }
  }

  /** Pairs whose key the bundle lacks add nothing: with no values at all the query is empty. */
  lemma {:induction false} QueryNothingFilled(pairs: seq<string>, n: nat, args: map<string, string>, encode: string -> string)
    requires n <= |pairs|
    requires forall i :: 0 <= i < |pairs| ==> Key(pairs[i]).Some? && Key(pairs[i]).value !in args
    ensures Query(pairs, n, args, encode) == Ok("")
  {
    if n > 0 {
      QueryNothingFilled(pairs, n - 1, args, encode);
    }
  }

  /**
   * The '&' goes with the pair before it, not the one after: while the last
   * template pair has no value, a non-empty query ends in '&'.
   */
  lemma {:induction false} QueryBeforeLast(pairs: seq<string>, n: nat, args: map<string, string>, encode: string -> string)
    requires n < |pairs|
    requires Query(pairs, n, args, encode).Ok?
    ensures var q := Query(pairs, n, args, encode).value;
      q == "" || q[|q| - 1] == '&'
  {
    if n > 0 {
      QueryBeforeLast(pairs, n - 1, args, encode);
    }
  }

  /** A template whose last key has no value leaves a trailing '&' after the last filled pair. */
  lemma TrailingAmpersandWhenLastMissing(pairs: seq<string>, args: map<string, string>, encode: string -> string)
    requires |pairs| > 0
    requires Query(pairs, |pairs|, args, encode).Ok?
    requires Key(pairs[|pairs| - 1]).value !in args
    ensures var q := Query(pairs, |pairs|, args, encode).value;
      q == "" || q[|q| - 1] == '&'
  {
    QueryBeforeLast(pairs, |pairs| - 1, args, encode);
  }

  /**
   * With a value for every template key the link becomes its part before the
   * first '?', then '?', then the filled pairs in template order joined by '&'.
   */
  lemma AllValuesGiven(uri: string, args: map<string, string>, encode: string -> string)
    requires |JavaText.Split(uri, '?')| >= 2
    requires var pairs := TemplatePairs(JavaText.Split(uri, '?')); |pairs| > 0 && AllFilled(pairs, args)
    ensures var pairs := TemplatePairs(JavaText.Split(uri, '?'));
      UriWithArgs(uri, args, encode)
        == Ok(JavaText.BeforeFirst(uri, '?') + "?" + JavaText.Join(FilledPairs(pairs, |pairs|, args, encode), '&'))
  {
    var pairs := TemplatePairs(JavaText.Split(uri, '?'));
    FilledLinkShape(uri, args, encode);
    QueryAllFilled(pairs, |pairs|, args, encode);
    var joined := JavaText.Join(FilledPairs(pairs, |pairs|, args, encode), '&');
    assert joined + "" == joined;
  }

  /** With no value for any template key the link becomes its part before the first '?' and a bare '?'. */
  lemma NoValuesGiven(uri: string, args: map<string, string>, encode: string -> string)
    requires |JavaText.Split(uri, '?')| >= 2
    requires var pairs := TemplatePairs(JavaText.Split(uri, '?'));
      forall i :: 0 <= i < |pairs| ==> Key(pairs[i]).Some? && Key(pairs[i]).value !in args
    ensures UriWithArgs(uri, args, encode) == Ok(JavaText.BeforeFirst(uri, '?') + "?")
  {
    var pairs := TemplatePairs(JavaText.Split(uri, '?'));
    FilledLinkShape(uri, args, encode);
    QueryNothingFilled(pairs, |pairs|, args, encode);
    assert JavaText.BeforeFirst(uri, '?') + "?" + "" == JavaText.BeforeFirst(uri, '?') + "?";
  }

  // ---------------------------------------------------------------------------
  // getErrorMessage
  // ---------------------------------------------------------------------------

  /** A Volley error, with the HTTP response when there was one. */
  datatype VolleyError = VolleyError(networkResponse: Option<NetworkResponse>)
  datatype NetworkResponse = NetworkResponse(statusCode: int)

  /** The two messages getErrorMessage chooses between. */
  datatype ErrorText = ErrorPermission | ErrorUndefined

  /** getErrorMessage: the permission message exactly for a response with status 403. */
  function ErrorMessage(volleyError: Option<VolleyError>): (m: ErrorText)
    ensures m == ErrorPermission <==>
      volleyError.Some? && volleyError.value.networkResponse.Some?
        && volleyError.value.networkResponse.value.statusCode == 403
    ensures m != ErrorPermission ==> m == ErrorUndefined
  {
    if volleyError.Some? && volleyError.value.networkResponse.Some? then
      if volleyError.value.networkResponse.value.statusCode == 403 then ErrorPermission else ErrorUndefined
    else ErrorUndefined
  }
}
