/** The gateway's `RouteValidator`: the table of open endpoints, each path
    pattern with the methods it is open for, and `isSecured`, which calls a
    request open when some entry matches both its path and its method.
    Patterns are kept cut at '/' into fixed segments and `{name}` segments. */
module RouteValidator {
  import opened Common

  datatype Segment = Fixed(text: string) | Variable(name: string)

  /** `openApiEndpoints`: a hash map from path pattern to methods. */
  const OpenApiEndpoints: map<seq<Segment>, seq<string>> := map[
    [Fixed("api"), Fixed("auth"), Fixed("authenticate")] := ["POST"],
    [Fixed("api"), Fixed("auth"), Fixed("register")] := ["POST"],
    [Fixed("api"), Fixed("auth"), Fixed("login")] := ["POST"],
    [Fixed("api"), Fixed("categories")] := ["GET"],
    [Fixed("api"), Fixed("events")] := ["GET"],
    [Fixed("api"), Fixed("events"), Variable("id")] := ["GET"],
    [Fixed("api"), Fixed("events"), Variable("id"), Fixed("reviews")] := ["GET"]
  ]

  /** The pieces of a split that are not empty, in order. */
  function NonEmpty(pieces: seq<string>): (r: seq<string>)
    ensures forall t :: t in r <==> t in pieces && t != ""
    ensures |r| <= |pieces|
  {
    if pieces == [] then []
    else
      assert pieces == [pieces[0]] + pieces[1..];
      (if pieces[0] == "" then [] else [pieces[0]]) + NonEmpty(pieces[1..])
  }

  /** `tokenizePath`: the path cut at '/', empty tokens ignored, so repeated
      separators count as one. */
  function Tokens(path: string): (r: seq<string>)
    ensures forall t :: t in r ==> t != "" && '/' !in t
  {
    NonEmpty(Split(path, '/'))
  }

  predicate StartsWithSeparator(path: string)
  {
    path != [] && path[0] == '/'
  }

  predicate EndsWithSeparator(path: string)
  {
    path != [] && path[|path| - 1] == '/'
  }

  /** Token-wise matching: fixed segments are equal, a variable segment takes
      any token. */
  predicate SegmentsMatch(pattern: seq<Segment>, tokens: seq<string>)
  {
    |pattern| == |tokens| &&
    forall i :: 0 <= i < |pattern| ==> pattern[i].Fixed? ==> tokens[i] == pattern[i].text
  }

  /** `pathMatcher.match(pattern, path)`, for the pattern forms the table uses:
      the path starts at the root as every pattern does, its tokens match the
      pattern's, and it ends with a separator exactly when the pattern does,
      which none of them does. */
  predicate PathMatches(pattern: seq<Segment>, path: string)
  {
    StartsWithSeparator(path) && !EndsWithSeparator(path) && SegmentsMatch(pattern, Tokens(path))
  }

  /** Some entry of the table opens this path for this verb. */
  predicate IsOpen(table: map<seq<Segment>, seq<string>>, path: string, verb: string)
  {
    exists pattern :: pattern in table && PathMatches(pattern, path) && verb in table[pattern]
  }

  /** `isSecured`: the entries are visited in the hash map's order, which is
      unspecified, so each step takes any entry not yet visited; the first
      entry that opens the request ends the search. The verdict is the same
      for every visiting order. */
  method IsSecured(table: map<seq<Segment>, seq<string>>, path: string, verb: string) returns (secured: bool)
    ensures secured <==> forall pattern :: pattern in table && PathMatches(pattern, path) ==> verb !in table[pattern]
  {
    var remaining := table.Keys;
    while remaining != {}
      invariant remaining <= table.Keys
      invariant forall p :: p in table.Keys - remaining && PathMatches(p, path) ==> verb !in table[p]
      decreases |remaining|
    {
      var p :| p in remaining;
      if PathMatches(p, path) && verb in table[p] {
        return false;
      }
      remaining := remaining - {p};
    }
    return true;
  }

  /** Creating an event is not open: /api/events is listed for GET only. */
  lemma PostEventsSecured(path: string)
    requires Tokens(path) == ["api", "events"]
    ensures !IsOpen(OpenApiEndpoints, path, "POST")
  {
    forall p | p in OpenApiEndpoints && PathMatches(p, path)
      ensures "POST" !in OpenApiEndpoints[p]
    {
      assert |p| == 2;
      assert p[1] == Fixed("events");
    }
  }

  /** /api/auth/authenticate is open for POST only. */
  lemma AuthenticateOpenOnlyForPost(path: string, verb: string)
    requires StartsWithSeparator(path) && !EndsWithSeparator(path)
    requires Tokens(path) == ["api", "auth", "authenticate"]
    ensures IsOpen(OpenApiEndpoints, path, verb) <==> verb == "POST"
  {
    var open := [Fixed("api"), Fixed("auth"), Fixed("authenticate")];
    assert open in OpenApiEndpoints && PathMatches(open, path);
    assert OpenApiEndpoints[open] == ["POST"] by {
      var later := [[Fixed("api"), Fixed("auth"), Fixed("register")],
                    [Fixed("api"), Fixed("auth"), Fixed("login")],
                    [Fixed("api"), Fixed("events"), Variable("id")]];
      assert forall q :: q in later ==> q[2] != open[2];
    }
    forall p | p in OpenApiEndpoints && PathMatches(p, path)
      ensures p == open
    {
      assert |p| == 3 && p[1] == Fixed("auth") && p[2] == Fixed("authenticate");
    }
  }

  /** Reading one event is open for any id, writing it is not. */
  lemma EventByIdOpenOnlyForGet(path: string, id: string, verb: string)
    requires StartsWithSeparator(path) && !EndsWithSeparator(path)
    requires Tokens(path) == ["api", "events", id]
    ensures IsOpen(OpenApiEndpoints, path, verb) <==> verb == "GET"
  {
    var open := [Fixed("api"), Fixed("events"), Variable("id")];
    assert open in OpenApiEndpoints && PathMatches(open, path);
    forall p | p in OpenApiEndpoints && PathMatches(p, path)
      ensures OpenApiEndpoints[p] == ["GET"]
    {
      assert |p| == 3 && p[1] == Fixed("events");
    }
  }

  /** Every request outside the table's shapes is secured, whatever the verb:
      a path not starting at the root, ending with a separator, or whose first
      token is not "api" matches no entry. */
  lemma NonApiPathSecured(path: string, verb: string)
    requires var t := Tokens(path);
      !StartsWithSeparator(path) || EndsWithSeparator(path) || t == [] || t[0] != "api"
    ensures !IsOpen(OpenApiEndpoints, path, verb)
  {
    forall p | p in OpenApiEndpoints
      ensures !PathMatches(p, path)
    {
      assert |p| >= 2 && p[0] == Fixed("api");
    }
  }

  /** The listing of events is open for GET at every path with its tokens. */
  lemma EventListOpenForGet(path: string)
    requires StartsWithSeparator(path) && !EndsWithSeparator(path)
    requires Tokens(path) == ["api", "events"]
    ensures IsOpen(OpenApiEndpoints, path, "GET")
  {
    var open := [Fixed("api"), Fixed("events")];
    assert open in OpenApiEndpoints && PathMatches(open, path);
  }

  lemma NonEmptyCons(x: string, rest: seq<string>)
    ensures NonEmpty([x] + rest) == (if x == "" then [] else [x]) + NonEmpty(rest)
  {
    assert ([x] + rest)[1..] == rest;
  }

  lemma SplitLeadingSeparator(b: string)
    ensures Split("/" + b, '/') == [""] + Split(b, '/')
  {
    assert "" + ['/'] + b == "/" + b;
    SplitCons("", b, '/');
  }

  /** A doubled separator after the first piece reads as a single one. */
  lemma DoubledAfterFirstPiece(a: string, b: string)
    requires '/' !in a
    ensures Tokens(a + "//" + b) == Tokens(a + "/" + b)
  {
    var x := Split(b, '/');
    assert a + "//" + b == a + ['/'] + ("/" + b);
    SplitCons(a, "/" + b, '/');
    SplitLeadingSeparator(b);
    NonEmptyCons("", x);
    assert NonEmpty(Split("/" + b, '/')) == NonEmpty(x);
    TokensCons(a, "/" + b, b);
  }

  /** Putting one more piece in front keeps two paths' tokens equal. */
  lemma TokensCons(head: string, t1: string, t2: string)
    requires '/' !in head && Tokens(t1) == Tokens(t2)
    ensures Tokens(head + ['/'] + t1) == Tokens(head + ['/'] + t2)
  {
    SplitCons(head, t1, '/');
    SplitCons(head, t2, '/');
    NonEmptyCons(head, Split(t1, '/'));
    NonEmptyCons(head, Split(t2, '/'));
  }

  /** A doubled separator anywhere in a path yields the same tokens as a single one. */
  lemma {:induction false} DoubledSeparatorTokens(a: string, b: string)
    ensures Tokens(a + "//" + b) == Tokens(a + "/" + b)
    decreases |a|
  {
    if '/' !in a {
      DoubledAfterFirstPiece(a, b);
    } else {
      var k := FirstIndex(a, '/');
      var head, tail := a[..k], a[k + 1..];
      assert a == head + ['/'] + tail;
      assert a + "//" + b == head + ['/'] + (tail + "//" + b);
      assert a + "/" + b == head + ['/'] + (tail + "/" + b);
      DoubledSeparatorTokens(tail, b);
      TokensCons(head, tail + "//" + b, tail + "/" + b);
    }
  }

  /** Repeated separators never change the verdict: "//api/events" and
      "/api//events" are open or secured as "/api/events" is. */
  lemma DoubledSeparatorIgnored(table: map<seq<Segment>, seq<string>>, a: string, b: string, verb: string)
    ensures IsOpen(table, a + "//" + b, verb) <==> IsOpen(table, a + "/" + b, verb)
  {
    var doubled, single := a + "//" + b, a + "/" + b;
    DoubledSeparatorTokens(a, b);
    assert StartsWithSeparator(doubled) == StartsWithSeparator(single) by {
      if a != [] { assert doubled[0] == a[0] == single[0]; }
    }
    assert EndsWithSeparator(doubled) == EndsWithSeparator(single) by {
      if b != [] { assert doubled[|doubled| - 1] == b[|b| - 1] == single[|single| - 1]; }
    }
    assert forall p :: PathMatches(p, doubled) == PathMatches(p, single);
  }
}
