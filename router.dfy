/** The hash router of the single-page site: a table of routes searched in
    registration order, exact and `:param` patterns, and a redirect to `/`
    when nothing matches. The browser's `location.hash` is a field; a route's
    callback is an identifier, and running it appends it to a log. */
module Router {
  import opened Wrappers
  import opened JsString
  import Uri

  /** Identifies the callback registered with a route. */
  type Handler = nat

  /** One `{ path, handler }` entry of the table. */
  datatype RouteEntry = RouteEntry(path: string, handler: Handler)

  // ---------------------------------------------------------------------
  // Patterns: `path.replace(/:\w+/g, '([^/]+)')`, anchored with ^…$
  // ---------------------------------------------------------------------

  /** The regular-expression class `\w`. */
  predicate IsWordChar(c: char) { IsAsciiLetter(c) || IsDigit(c) || c == '_' }

  /** A pattern is a run of literal characters and `([^/]+)` groups. */
  datatype Token = Lit(c: char) | Param

  /** Drops a leading run of word characters (the rest of a `:\w+` name). */
  function SkipWord(s: string): (r: string)
    ensures |r| <= |s|
  {
    if s != [] && IsWordChar(s[0]) then SkipWord(s[1..]) else s
  }

  /** The regular expression built from a route path: each `:` followed by
      word characters becomes a group, every other character stands for
      itself. */
  function Tokenize(p: string): seq<Token>
    decreases |p|
  {
    if p == [] then []
    else if p[0] == ':' && |p| >= 2 && IsWordChar(p[1]) then [Param] + Tokenize(SkipWord(p[2..]))
    else [Lit(p[0])] + Tokenize(p[1..])
  }

  /** The literal tokens of a string. */
  function Lits(p: string): (ts: seq<Token>)
    ensures |ts| == |p|
  {
    if p == [] then [] else [Lit(p[0])] + Lits(p[1..])
  }

  /** The whole of `s` matches the pattern (both ends anchored); a group takes
      one or more characters other than `/`, anywhere the rest can still
      match. */
  predicate PatternMatch(ts: seq<Token>, s: string)
    decreases |ts|, 0
  {
    if ts == [] then s == []
    else match ts[0]
      case Lit(c) => s != [] && s[0] == c && PatternMatch(ts[1..], s[1..])
      case Param => exists k | 1 <= k <= |s| :: GroupThen(ts[1..], s, k)
  }

  /** The group takes the first `k` characters of `s`, none of them `/`, and
      the rest of the pattern matches what follows. */
  predicate GroupThen(rest: seq<Token>, s: string, k: nat)
    requires k <= |s|
    decreases |rest|, 1
  {
    '/' !in s[..k] && PatternMatch(rest, s[k..])
  }

  /** The test inside `routes.find`: equal strings, or, for a path holding
      `:`, its regular expression. */
  predicate RouteMatches(path: string, hash: string) {
    path == hash || (':' in path && PatternMatch(Tokenize(path), hash))
  }

  /** `routes.find(...)`, as the index of the entry found: the first entry in
      registration order whose path matches. */
  function FindRoute(routes: seq<RouteEntry>, hash: string): (r: Option<nat>)
    ensures r.Some? ==> r.value < |routes| && RouteMatches(routes[r.value].path, hash)
    ensures r.Some? ==> forall j :: 0 <= j < r.value ==> !RouteMatches(routes[j].path, hash)
    ensures r.None? ==> forall j :: 0 <= j < |routes| ==> !RouteMatches(routes[j].path, hash)
  {
    if routes == [] then None
    else if RouteMatches(routes[0].path, hash) then Some(0)
    else match FindRoute(routes[1..], hash)
      case None => None
      case Some(i) => Some(i + 1)
  }

  // ---------------------------------------------------------------------
  // The location hash
  // ---------------------------------------------------------------------

  /** `window.location.hash.slice(1) || '/'`: the hash without its `#`, and
      `/` when that leaves nothing. */
  function CurrentPath(hash: string): (p: string)
    ensures p != []
  {
    if |hash| <= 1 then "/" else hash[1..]
  }

  /** The characters the `location.hash` setter writes as UTF-8 escapes
      (the fragment percent-encode set of the WHATWG URL Standard): C0
      controls, space, `"`, `<`, `>`, `` ` `` and everything above `~`. */
  predicate FragmentEscaped(c: char) {
    c as int < 0x20 || c as int > 0x7E || c == ' ' || c == '"' || c == '<' || c == '>' || c == '`'
  }

  /** Tabs and line breaks, which the URL parser drops before it reads. */
  predicate TabOrNewline(c: char) { c == '\t' || c == '\n' || c == '\r' }

  /** The fragment the setter stores for `input`: tabs and line breaks
      dropped, characters of the fragment set escaped, the rest (`%`
      included) kept. */
  function FragmentEncode(input: string): string {
    if input == [] then []
    else
      var c := input[0];
      (if TabOrNewline(c) then [] else if FragmentEscaped(c) then Uri.EncodeChar(c) else [c])
      + FragmentEncode(input[1..])
  }

  /** The value `location.hash` reads back after `location.hash = path`:
      one leading `#` of the value is dropped, the rest is stored as a
      fragment, and the fragment is read back behind a `#` unless it is
      empty. */
  function NavigatedHash(path: string): (h: string)
    ensures h == [] || h[0] == '#'
  {
    var input := if path != [] && path[0] == '#' then path[1..] else path;
    var fragment := FragmentEncode(input);
    if fragment == [] then "" else "#" + fragment
  }

  /** A path of plain characters is stored as it is. */
  lemma {:induction false} FragmentEncodePlain(path: string)
    requires forall k :: 0 <= k < |path| ==> !FragmentEscaped(path[k]) && !TabOrNewline(path[k])
    ensures FragmentEncode(path) == path
  {
    if path != [] {
      FragmentEncodePlain(path[1..]);
      assert path == [path[0]] + path[1..];
    }
  }

  /** Decoding the stored fragment of a path without tabs or line breaks
      gives the path back, as long as the path holds no `%` of its own. */
  lemma {:induction false} FragmentDecodes(path: string)
    requires '%' !in path
    requires forall k :: 0 <= k < |path| ==> !TabOrNewline(path[k])
    ensures Uri.DecodeURIComponent(FragmentEncode(path)) == Some(path)
  {
    if path != [] {
      var c := path[0];
      var rest := FragmentEncode(path[1..]);
      FragmentDecodes(path[1..]);
      assert path == [c] + path[1..];
      if FragmentEscaped(c) {
        Uri.DecodeEncodedChar(c, rest);
      } else {
        var t := [c] + rest;
        assert FragmentEncode(path) == t;
        assert t[1..] == rest;
      }
    }
  }

  /** Setting the hash to a path and reading the route back gives the
      stored fragment (`/` when nothing is stored): the path itself when it
      holds only plain characters, and otherwise a text that
      `decodeURIComponent` turns back into the path. */
  lemma NavigateThenRead(path: string)
    requires path != [] && path[0] != '#'
    ensures CurrentPath(NavigatedHash(path)) == if FragmentEncode(path) == [] then "/" else FragmentEncode(path)
    ensures (forall k :: 0 <= k < |path| ==> !FragmentEscaped(path[k]) && !TabOrNewline(path[k])) ==>
              CurrentPath(NavigatedHash(path)) == path
    ensures '%' !in path && (forall k :: 0 <= k < |path| ==> !TabOrNewline(path[k])) ==>
              Uri.DecodeURIComponent(CurrentPath(NavigatedHash(path))) == Some(path)
  {
    var fragment := FragmentEncode(path);
    if fragment != [] {
      assert ("#" + fragment)[1..] == fragment;
    }
    if forall k :: 0 <= k < |path| ==> !FragmentEscaped(path[k]) && !TabOrNewline(path[k]) {
      FragmentEncodePlain(path);
    }
    if '%' !in path && forall k :: 0 <= k < |path| ==> !TabOrNewline(path[k]) {
      FragmentDecodes(path);
    }
  }

  /** A space is escaped: navigating to `/a b` reads back `/a%20b`. */
  lemma NavigateEscapesSpace(path: string)
    requires path == ['/', 'a', ' ', 'b']
    ensures CurrentPath(NavigatedHash(path)) == ['/', 'a', '%', '2', '0', 'b']
  {
    var tail := path[3..];
    assert tail == ['b'];
    FragmentEncodePlain(tail);
    assert path[2..][1..] == tail;
    Uri.HexCharValue(2);
    Uri.HexCharValue(0);
    assert Uri.EncodeChar(' ') == ['%', '2', '0'];
    assert FragmentEncode(path[2..]) == ['%', '2', '0'] + tail;
    assert path[1..][1..] == path[2..];
    assert path[1..] == ['a'] + path[2..];
    assert path[0..] == path;
    NavigateThenRead(path);
  }

  /** The router. */
  class Router {
    /** `this.routes`, in registration order. */
    var routes: seq<RouteEntry>
    /** `this.currentRoute`; `None` is its initial `null`. */
    var currentRoute: Option<string>
    /** `window.location.hash`. */
    var hash: string
    /** The callbacks run so far, in order. */
    var fired: seq<Handler>

    /** `new Router()`: an empty table, no current route, and the initial
        `handleRoute()`, which with no routes can only redirect to `/`. */
    constructor (initialHash: string)
      ensures routes == [] && currentRoute == None && fired == []
      ensures hash == NavigatedHash("/")
    {
      routes := [];
      currentRoute := None;
      hash := initialHash;
      fired := [];
      new;
      HandleRoute();
    }

    /** `route(path, handler)`: appends the entry and returns the router. */
    method Route(path: string, handler: Handler) returns (self: Router)
      modifies this
      ensures self == this
      ensures routes == old(routes) + [RouteEntry(path, handler)]
      ensures currentRoute == old(currentRoute) && hash == old(hash) && fired == old(fired)
    {
      routes := routes + [RouteEntry(path, handler)];
      self := this;
    }

    /** `handleRoute()`: the first matching entry becomes current and its
        callback runs once; with no match the hash is sent to `/` and
        nothing else changes. */
    method HandleRoute()
      modifies this
      ensures routes == old(routes)
      ensures var path := CurrentPath(old(hash));
              match FindRoute(routes, path)
              case Some(i) =>
                currentRoute == Some(path) && hash == old(hash)
                && fired == old(fired) + [routes[i].handler]
              case None =>
                currentRoute == old(currentRoute) && hash == NavigatedHash("/")
                && fired == old(fired)
    {
      var path := CurrentPath(hash);
      var found := FindRoute(routes, path);
      if found.Some? {
        currentRoute := Some(path);
        fired := fired + [routes[found.value].handler];
      } else {
        Navigate("/");
      }
    }

    /** `navigate(path)`: only the hash changes. */
    method Navigate(path: string)
      modifies this`hash
      ensures hash == NavigatedHash(path)
    {
      hash := NavigatedHash(path);
    }

    /** `getCurrentRoute()`: `this.currentRoute || '/'`, never empty. */
    method GetCurrentRoute() returns (r: string)
      ensures r != []
      ensures currentRoute.Some? && currentRoute.value != [] ==> r == currentRoute.value
      ensures currentRoute.None? || currentRoute == Some("") ==> r == "/"
    {
      if currentRoute.Some? && currentRoute.value != [] {
        r := currentRoute.value;
      } else {
        r := "/";
      }
    }
  }

  // ---------------------------------------------------------------------
  // What a route path matches
  // ---------------------------------------------------------------------

  /** A path without `:` matches exactly itself. */
  lemma NoColonMatchesOnlyItself(path: string, hash: string)
    requires ':' !in path
    ensures RouteMatches(path, hash) <==> path == hash
  {
  }

  /** A string without `:` is all literal characters. */
  lemma {:induction false} TokenizeLiteral(p: string, rest: string)
    requires ':' !in p
    ensures Tokenize(p + rest) == Lits(p) + Tokenize(rest)
    decreases |p|
  {
    if p == [] {
      assert p + rest == rest;
    } else {
      assert (p + rest)[0] == p[0];
      assert (p + rest)[1..] == p[1..] + rest;
      TokenizeLiteral(p[1..], rest);
    }
  }

  /** `SkipWord` removes a whole run of word characters and stops before a
      character that is not one. */
  lemma {:induction false} SkipWordRun(name: string, rest: string)
    requires forall k :: 0 <= k < |name| ==> IsWordChar(name[k])
    requires rest == [] || !IsWordChar(rest[0])
    ensures SkipWord(name + rest) == rest
    decreases |name|
  {
    if name == [] {
      assert name + rest == rest;
    } else {
      assert (name + rest)[1..] == name[1..] + rest;
      SkipWordRun(name[1..], rest);
    }
  }

  /** A literal token matches exactly its own character. */
  lemma LitStep(c: char, rest: seq<Token>, s: string)
    ensures PatternMatch([Lit(c)] + rest, s) <==> s != [] && s[0] == c && PatternMatch(rest, s[1..])
  {
    var ts := [Lit(c)] + rest;
    assert ts[0] == Lit(c) && ts[1..] == rest;
  }

  /** Literal tokens match exactly their own characters. */
  lemma {:induction false} LitsMatch(p: string, ts: seq<Token>, s: string)
    ensures PatternMatch(Lits(p) + ts, s)
            <==> |p| <= |s| && s[..|p|] == p && PatternMatch(ts, s[|p|..])
    decreases |p|
  {
    if p == [] {
      assert Lits(p) + ts == ts;
      assert s[..0] == p && s[0..] == s;
    } else {
      var rest := Lits(p[1..]) + ts;
      assert Lits(p) + ts == [Lit(p[0])] + rest;
      LitStep(p[0], rest, s);
      if s != [] {
        LitsMatch(p[1..], ts, s[1..]);
        if |p| <= |s| {
          assert s[1..][|p| - 1..] == s[|p|..];
          assert s[..|p|] == [s[0]] + s[1..][..|p| - 1];
        }
      }
    }
  }

  /** Literal tokens alone match exactly their own text. */
  lemma LitsMatchExactly(p: string, s: string)
    ensures PatternMatch(Lits(p), s) <==> s == p
  {
    assert Lits(p) + [] == Lits(p);
    LitsMatch(p, [], s);
    if |p| <= |s| && s[..|p|] == p && s[|p|..] == [] {
      assert s == s[..|p|] + s[|p|..];
    }
  }

  /** A group that ends where literal text begins leaves exactly that text
      after it. */
  lemma GroupThenLits(suffix: string, s: string, k: nat)
    requires 1 <= k <= |s| && GroupThen(Lits(suffix), s, k)
    ensures s[k..] == suffix && '/' !in s[..k]
  {
    LitsMatchExactly(suffix, s[k..]);
  }

  /** A match of a pattern that opens with a group names where the group
      ends. */
  lemma GroupWitness(rest: seq<Token>, s: string) returns (k: nat)
    requires PatternMatch([Param] + rest, s)
    ensures 1 <= k <= |s| && GroupThen(rest, s, k)
  {
    var ts := [Param] + rest;
    assert ts[0] == Param && ts[1..] == rest;
    k :| 1 <= k <= |s| && GroupThen(rest, s, k);
  }

  /** A non-empty, slash-free head followed by the tail `t` is the same split
      counted from the end. */
  lemma SplitBeforeTail(s: string, k: nat, t: string)
    requires 1 <= k <= |s| && s[k..] == t && '/' !in s[..k]
    ensures |s| > |t| && s[|s| - |t|..] == t && '/' !in s[..|s| - |t|]
  {
    assert |s[k..]| == |s| - k;
  }

  /** Only a non-empty, slash-free run followed by exactly the literal text
      matches a group followed by that text. */
  lemma ParamThenLitsOnly(suffix: string, s: string)
    requires PatternMatch([Param] + Lits(suffix), s)
    ensures |s| > |suffix| && s[|s| - |suffix|..] == suffix && '/' !in s[..|s| - |suffix|]
  {
    var k := GroupWitness(Lits(suffix), s);
    GroupThenLits(suffix, s, k);
    SplitBeforeTail(s, k, suffix);
  }

  /** Every non-empty, slash-free run followed by the literal text matches a
      group followed by that text. */
  lemma ParamThenLitsIf(suffix: string, s: string)
    requires |s| > |suffix| && s[|s| - |suffix|..] == suffix && '/' !in s[..|s| - |suffix|]
    ensures PatternMatch([Param] + Lits(suffix), s)
  {
    var ts := [Param] + Lits(suffix);
    assert ts[0] == Param && ts[1..] == Lits(suffix);
    var k0 := |s| - |suffix|;
    LitsMatchExactly(suffix, s[k0..]);
    assert GroupThen(Lits(suffix), s, k0);
  }

  /** A group followed by literal text matches a non-empty, slash-free run
      followed by exactly that text. */
  lemma ParamThenLits(suffix: string, s: string)
    ensures PatternMatch([Param] + Lits(suffix), s)
            <==> |s| > |suffix| && s[|s| - |suffix|..] == suffix && '/' !in s[..|s| - |suffix|]
  {
    if PatternMatch([Param] + Lits(suffix), s) {
      ParamThenLitsOnly(suffix, s);
    }
    if |s| > |suffix| && s[|s| - |suffix|..] == suffix && '/' !in s[..|s| - |suffix|] {
      ParamThenLitsIf(suffix, s);
    }
  }

  /** A `:` followed by a word character opens a group. */
  lemma TokenizeGroupStep(p: string)
    requires |p| >= 2 && p[0] == ':' && IsWordChar(p[1])
    ensures Tokenize(p) == [Param] + Tokenize(SkipWord(p[2..]))
  {
  }

  /** A path without `:` tokenizes to its letters alone. */
  lemma TokenizeNoColon(p: string)
    requires ':' !in p
    ensures Tokenize(p) == Lits(p)
  {
    assert p + [] == p;
    TokenizeLiteral(p, []);
    assert Lits(p) + [] == Lits(p);
  }

  /** `:name` followed by literal text becomes one group and that text. */
  lemma GroupTokens(name: string, suffix: string)
    requires ':' !in suffix
    requires name != [] && forall k :: 0 <= k < |name| ==> IsWordChar(name[k])
    requires suffix == [] || !IsWordChar(suffix[0])
    ensures Tokenize(":" + name + suffix) == [Param] + Lits(suffix)
  {
    var tail := ":" + name + suffix;
    assert tail[1..] == name + suffix;
    assert tail[2..] == name[1..] + suffix;
    SkipWordRun(name[1..], suffix);
    TokenizeGroupStep(tail);
    TokenizeNoColon(suffix);
  }

  /** The regular expression of `prefix:name suffix`: the prefix's letters,
      one group, the suffix's letters. */
  lemma ParamPathTokens(prefix: string, name: string, suffix: string)
    requires ':' !in prefix && ':' !in suffix
    requires name != [] && forall k :: 0 <= k < |name| ==> IsWordChar(name[k])
    requires suffix == [] || !IsWordChar(suffix[0])
    ensures ':' in prefix + ":" + name + suffix
    ensures Tokenize(prefix + ":" + name + suffix) == Lits(prefix) + ([Param] + Lits(suffix))
  {
    var tail := ":" + name + suffix;
    var path := prefix + ":" + name + suffix;
    assert path == prefix + tail;
    assert path[|prefix|] == ':';
    TokenizeLiteral(prefix, tail);
    GroupTokens(name, suffix);
  }

  /** The path `prefix:name suffix` itself has the shape its pattern accepts. */
  lemma ParamPathShape(prefix: string, name: string, suffix: string)
    requires name != [] && forall k :: 0 <= k < |name| ==> IsWordChar(name[k])
    ensures var path := prefix + ":" + name + suffix;
            |path| > |prefix| + |suffix|
            && path[..|prefix|] == prefix
            && path[|path| - |suffix|..] == suffix
            && '/' !in path[|prefix|..|path| - |suffix|]
  {
    var middle := ":" + name;
    var path := prefix + middle + suffix;
    assert prefix + ":" + name + suffix == path;
    assert path[..|prefix|] == prefix;
    assert path[|path| - |suffix|..] == suffix;
    assert path[|prefix|..|path| - |suffix|] == middle;
    forall k | 0 <= k < |middle| ensures middle[k] != '/' {
      if k > 0 { assert middle[k] == name[k - 1]; }
    }
  }

  /** Cutting `s[i..]` at `j - i` gives `s[i..j]` and `s[j..]`. */
  lemma SliceOfDrop(s: string, i: nat, j: nat)
    requires i <= j <= |s|
    ensures s[i..][..j - i] == s[i..j]
    ensures s[i..][j - i..] == s[j..]
  {
  }

  /** A route path `prefix:name suffix` (no other `:`) matches exactly the
      hashes that begin with `prefix`, end with `suffix`, and hold a
      non-empty run without `/` in between. */
  lemma ParamRoute(prefix: string, name: string, suffix: string, hash: string)
    requires ':' !in prefix && ':' !in suffix
    requires name != [] && forall k :: 0 <= k < |name| ==> IsWordChar(name[k])
    requires suffix == [] || !IsWordChar(suffix[0])
    ensures RouteMatches(prefix + ":" + name + suffix, hash)
            <==> |hash| > |prefix| + |suffix|
                 && hash[..|prefix|] == prefix
                 && hash[|hash| - |suffix|..] == suffix
                 && '/' !in hash[|prefix|..|hash| - |suffix|]
  {
    ParamPathTokens(prefix, name, suffix);
    ParamPathShape(prefix, name, suffix);
    LitsMatch(prefix, [Param] + Lits(suffix), hash);
    if |prefix| <= |hash| && hash[..|prefix|] == prefix {
      var rest := hash[|prefix|..];
      ParamThenLits(suffix, rest);
      if |rest| >= |suffix| {
        SliceOfDrop(hash, |prefix|, |hash| - |suffix|);
      }
    }
  }
}
