/** Path strings: tokenize, join, the Path constructor's split, and what they say about the keys
    of the path cache. */
module Tokens {
  import opened Namespace

  predicate SlashFree(t: string) {
    forall i | 0 <= i < |t| :: t[i] != '/'
  }

  predicate Token(t: string) {
    t != "" && SlashFree(t)
  }

  predicate AllTokens(ts: seq<string>) {
    forall i | 0 <= i < |ts| :: Token(ts[i])
  }

  /** The position of the first slash at or after n0, or the length of the string. */
  function FirstSlash(s: string, n0: nat): (n1: nat)
    requires n0 <= |s|
    ensures n0 <= n1 <= |s|
    ensures forall i | n0 <= i < n1 :: s[i] != '/'
    ensures n1 < |s| ==> s[n1] == '/'
    decreases |s| - n0
  {
    if n0 == |s| || s[n0] == '/' then n0 else FirstSlash(s, n0 + 1)
  }

  /** The non-empty stretches between slashes. */
  function TokensOf(s: string): (ts: seq<string>)
    ensures AllTokens(ts)
    decreases |s|
  {
    if s == "" then []
    else if s[0] == '/' then TokensOf(s[1..])
    else
      var n := FirstSlash(s, 0);
      [s[..n]] + TokensOf(s[n..])
  }

  function Join(ts: seq<string>): string {
    if ts == [] then "" else if |ts| == 1 then ts[0] else ts[0] + "/" + Join(ts[1..])
  }

  lemma FirstSlashOf(s: string, n0: nat, n1: nat)
    requires n0 <= n1 <= |s| && (forall i | n0 <= i < n1 :: s[i] != '/') && (n1 < |s| ==> s[n1] == '/')
    ensures FirstSlash(s, n0) == n1
  {
  }

  /** A token up front stays a token. */
  lemma TokenFirst(t: string, rest: string)
    requires Token(t) && (rest == "" || rest[0] == '/')
    ensures TokensOf(t + rest) == [t] + TokensOf(rest)
  {
    var s := t + rest;
    FirstSlashOf(s, 0, |t|);
    assert s[..|t|] == t && s[|t|..] == rest;
  }

  lemma SlashFirst(s: string)
    ensures TokensOf("/" + s) == TokensOf(s)
  {
    assert ("/" + s)[1..] == s;
  }

  /** A slash anywhere separates: runs of slashes and outer slashes make no difference. */
  lemma {:induction false} SlashSeparates(a: string, b: string)
    ensures TokensOf(a + "/" + b) == TokensOf(a) + TokensOf(b)
    decreases |a|
  {
    if a == "" {
      assert a + "/" + b == "/" + b;
      SlashFirst(b);
    } else {
      hide TokensOf, FirstSlash;
      if a[0] == '/' {
        SlashSeparates(a[1..], b);
        AfterSlash(a, b);
      } else {
        var n := FirstSlash(a, 0);
        FirstToken(a, n);
        SlashSeparates(a[n..], b);
        AfterToken(a[..n], a[n..], b);
      }
    }
  }

  lemma AfterSlash(a: string, b: string)
    requires a != "" && a[0] == '/' && TokensOf(a[1..] + "/" + b) == TokensOf(a[1..]) + TokensOf(b)
    ensures TokensOf(a + "/" + b) == TokensOf(a) + TokensOf(b)
  {
    hide TokensOf;
    SlashFirst(a[1..]);
    SlashFirst(a[1..] + "/" + b);
    assert a == "/" + a[1..];
    SlashAssoc("/", a[1..], b);
  }

  lemma AfterToken(t: string, rest: string, b: string)
    requires Token(t) && (rest == "" || rest[0] == '/') && TokensOf(rest + "/" + b) == TokensOf(rest) + TokensOf(b)
    ensures TokensOf(t + rest + "/" + b) == TokensOf(t + rest) + TokensOf(b)
  {
    hide TokensOf;
    TokenFirst(t, rest);
    TokenFirst(t, rest + "/" + b);
    SlashAssoc(t, rest, b);
    assert [t] + (TokensOf(rest) + TokensOf(b)) == [t] + TokensOf(rest) + TokensOf(b);
  }

  lemma SlashAssoc(s: string, t: string, u: string)
    ensures s + t + "/" + u == s + (t + "/" + u)
  {
  }

  lemma FirstToken(a: string, n: nat)
    requires a != "" && a[0] != '/' && n == FirstSlash(a, 0)
    ensures n > 0 && Token(a[..n]) && a == a[..n] + a[n..] && (a[n..] == "" || a[n..][0] == '/')
  {
  }

  /** Joined tokens come apart again. */
  lemma {:induction false} TokensOfJoin(ts: seq<string>)
    requires AllTokens(ts)
    ensures TokensOf(Join(ts)) == ts
    decreases |ts|
  {
    if |ts| == 1 {
      TokenFirst(ts[0], "");
      assert ts[0] + "" == ts[0];
    } else if ts != [] {
      TokensOfJoin(ts[1..]);
      TokenFirst(ts[0], "/" + Join(ts[1..]));
      SlashFirst(Join(ts[1..]));
      assert ts[0] + "/" + Join(ts[1..]) == ts[0] + ("/" + Join(ts[1..]));
    }
  }

  /** The form in which paths key the cache. */
  function Normal(s: string): string {
    Join(TokensOf(s))
  }

  /** Normalising twice changes nothing more, and two strings share a key exactly when they have
      the same tokens: invalidate finds what getnode cached under any spelling of a path, and nothing
      cached under another. */
  lemma KeysAreTokenLists(s: string, t: string)
    ensures Normal(Normal(s)) == Normal(s)
    ensures Normal(s) == Normal(t) <==> TokensOf(s) == TokensOf(t)
  {
    TokensOfJoin(TokensOf(s));
    TokensOfJoin(TokensOf(t));
  }

  /** The tokens still to come at n0, which may be one past the end. */
  function TokensFrom(s: string, n0: nat): seq<string> {
    if n0 < |s| then TokensOf(s[n0..]) else []
  }

  /** tokenize. */
  method Tokenize(path: string) returns (result: seq<string>)
    ensures result == TokensOf(path)
  {
    hide TokensOf, TokensFrom;
    result := [];
    var n0, n1, n := 0, 0, |path|;
    AllToCome(path);
    while n0 < n
      invariant 0 <= n0 <= n + 1
      invariant result + TokensFrom(path, n0) == TokensOf(path)
    {
      n1 := FirstSlash(path, n0);
      Stretch(path, n0, n1);
      if n1 > n0 {
        result := result + [path[n0..n1]];
      }
      n0 := n1 + 1;
    }
    NoneToCome(path, n0);
  }

  lemma AllToCome(s: string)
    ensures TokensFrom(s, 0) == TokensOf(s)
  {
    assert s[0..] == s;
  }

  lemma NoneToCome(s: string, n0: nat)
    requires n0 >= |s|
    ensures TokensFrom(s, n0) == []
  {
  }

  /** One turn of tokenize. */
  lemma Stretch(s: string, n0: nat, n1: nat)
    requires n0 < |s| && n1 == FirstSlash(s, n0)
    ensures TokensFrom(s, n0) == (if n1 > n0 then [s[n0..n1]] else []) + TokensFrom(s, n1 + 1)
  {
    assert TokensOf("") == [];
    hide TokensOf, FirstSlash;
    var rest := s[n1..];
    if n1 < |s| {
      assert rest == "/" + s[n1 + 1..];
      SlashFirst(s[n1 + 1..]);
    }
    assert s[n0..] == s[n0..n1] + rest;
    if n1 > n0 {
      TokenFirst(s[n0..n1], rest);
    }
  }

  /** join. */
  method JoinTokens(ts: seq<string>) returns (result: string)
    ensures result == Join(ts)
  {
    result := "";
    var i := 0;
    if ts != [] {
      result := ts[0];
      i := 1;
    }
    assert ts[..i] == if ts == [] then [] else [ts[0]];
    while i < |ts|
      invariant 0 <= i <= |ts| && (ts != [] ==> i >= 1)
      invariant result == Join(ts[..i])
    {
      JoinLast(ts[..i], ts[i]);
      assert ts[..i + 1] == ts[..i] + [ts[i]];
      result := result + "/" + ts[i];
      i := i + 1;
    }
    assert ts[..i] == ts;
  }

  lemma {:induction false} JoinLast(ts: seq<string>, t: string)
    requires ts != []
    ensures Join(ts + [t]) == Join(ts) + "/" + t
    decreases |ts|
  {
    assert (ts + [t])[1..] == ts[1..] + [t];
    if |ts| > 1 {
      JoinLast(ts[1..], t);
      assert Join(ts + [t]) == ts[0] + "/" + (Join(ts[1..]) + "/" + t);
    }
  }

  /** The position of the last character up to k that is a slash (or, for notSlash, that is none);
      -1 when there is none. */
  function LastOf(s: string, k: int, notSlash: bool): (i: int)
    requires -1 <= k < |s|
    ensures -1 <= i <= k
  {
    if k < 0 || (s[k] != '/') == notSlash then k else LastOf(s, k - 1, notSlash)
  }

  lemma {:induction false} LastIs(s: string, k: int, notSlash: bool)
    requires -1 <= k < |s|
    ensures var i := LastOf(s, k, notSlash);
            && (i >= 0 ==> (s[i] != '/') == notSlash)
            && forall j | i < j <= k :: (s[j] == '/') == notSlash
    decreases k
  {
    if !(k < 0 || (s[k] != '/') == notSlash) {
      LastIs(s, k - 1, notSlash);
    }
  }

  /** The Path constructor: the last token, and the string before the slash in front of it. */
  method Split(path: string) returns (parentpath: string, leaf: string)
    ensures parentpath == SplitOf(path).0 && leaf == SplitOf(path).1
  {
    var notslash := LastOf(path, |path| - 1, true);
    if notslash < 0 {
      return "", "";
    }
    var slashpos := LastOf(path, notslash, false);
    leaf := path[slashpos + 1..notslash + 1];
    if slashpos >= 0 {
      parentpath := path[..slashpos];
    } else {
      parentpath := path;
    }
  }

  /** What the constructor's substr calls yield; without a slash before the last token, the position
      "not found" makes the parent the whole string. */
  function SplitOf(path: string): (string, string) {
    var notslash := LastOf(path, |path| - 1, true);
    if notslash < 0 then ("", "")
    else
      var slashpos := LastOf(path, notslash, false);
      (if slashpos >= 0 then path[..slashpos] else path, path[slashpos + 1..notslash + 1])
  }

  lemma {:induction false} OnlySlashes(s: string)
    requires forall i | 0 <= i < |s| :: s[i] == '/'
    ensures TokensOf(s) == []
    decreases |s|
  {
    if s != "" {
      OnlySlashes(s[1..]);
    }
  }

  /** A string with its last slash before a token at i and the end of that token at j. */
  lemma SplitAt(s: string, i: nat, j: nat)
    requires i < j < |s| && s[i] == '/' && Token(s[i + 1..j + 1]) && forall k | j < k < |s| :: s[k] == '/'
    ensures TokensOf(s) == TokensOf(s[..i]) + [s[i + 1..j + 1]]
  {
    hide TokensOf, Token;
    var leaf, tail := s[i + 1..j + 1], s[j + 1..];
    Pieces(s, i, j);
    OnlySlashes(tail);
    SlashSeparates(s[..i], leaf + tail);
    TokenFirst(leaf, tail);
  }

  lemma Pieces(s: string, i: nat, j: nat)
    requires i < j < |s| && s[i] == '/'
    ensures s == s[..i] + "/" + (s[i + 1..j + 1] + s[j + 1..])
  {
  }

  lemma SplitAtSlash(path: string, n: int, k: int)
    requires 0 <= n < |path| && n == LastOf(path, |path| - 1, true) && k == LastOf(path, n, false) && k >= 0
    ensures TokensOf(SplitOf(path).0) + [SplitOf(path).1] == TokensOf(path)
    ensures exists i :: 0 <= i < n && path[i] == '/'
  {
    hide TokensOf, LastOf;
    LastIs(path, |path| - 1, true);
    LastIs(path, n, false);
    assert SplitOf(path) == (path[..k], path[k + 1..n + 1]);
    SplitAt(path, k, n);
  }

  lemma SplitWithoutSlash(path: string, n: int)
    requires 0 <= n < |path| && n == LastOf(path, |path| - 1, true) && LastOf(path, n, false) < 0
    ensures TokensOf(SplitOf(path).0) + [SplitOf(path).1] != TokensOf(path)
    ensures !exists i :: 0 <= i < n && path[i] == '/'
  {
    hide TokensOf, LastOf;
    LastIs(path, n, false);
    assert SplitOf(path).0 == path;
    var ts := TokensOf(path);
    assert |ts + [SplitOf(path).1]| == |ts| + 1;
  }

  /** Parent and leaf are all the tokens but the last, and the last, exactly when a slash stands
      before the last token, as it does in every absolute path. */
  lemma SplitLaw(path: string)
    requires exists i :: 0 <= i < |path| && path[i] != '/'
    ensures TokensOf(SplitOf(path).0) + [SplitOf(path).1] == TokensOf(path)
            <==> exists i :: 0 <= i < LastOf(path, |path| - 1, true) && path[i] == '/'
  {
    hide TokensOf, LastOf, SplitOf;
    var n := LastOf(path, |path| - 1, true);
    LastIs(path, |path| - 1, true);
    if LastOf(path, n, false) >= 0 {
      SplitAtSlash(path, n, LastOf(path, n, false));
    } else {
      SplitWithoutSlash(path, n);
    }
  }

  /** A token as an entry name. */
  function NameOf(t: string): Name {
    if t == "." then Dot else if t == ".." then DotDot else Word(t)
  }

  function PathOfTokens(ts: seq<string>): Path {
    seq(|ts|, i requires 0 <= i < |ts| => NameOf(ts[i]))
  }

  /** The path a string names. */
  function PathOf(s: string): Path {
    PathOfTokens(TokensOf(s))
  }

  /** Equal paths are equal cache keys. */
  lemma PathsAreKeys(s: string, t: string)
    ensures PathOf(s) == PathOf(t) <==> Normal(s) == Normal(t)
  {
    KeysAreTokenLists(s, t);
    var a, b := TokensOf(s), TokensOf(t);
    if PathOf(s) == PathOf(t) {
      assert |a| == |PathOf(s)| == |b|;
      forall i | 0 <= i < |a|
        ensures a[i] == b[i]
      {
        assert PathOf(s)[i] == NameOf(a[i]) && PathOf(t)[i] == NameOf(b[i]);
      }
    }
  }

  /** On absolute paths the constructor's strings are the parent path and the last name. */
  lemma SplitIsParentAndLeaf(path: string)
    requires path != "" && path[0] == '/' && exists i :: 0 <= i < |path| && path[i] != '/'
    ensures PathOf(SplitOf(path).0) == Parent(PathOf(path))
    ensures NameOf(SplitOf(path).1) == Leaf(PathOf(path))
  {
    SplitLaw(path);
    LastIs(path, |path| - 1, true);
    assert 0 < LastOf(path, |path| - 1, true);
    var ts := TokensOf(SplitOf(path).0);
    assert TokensOf(path) == ts + [SplitOf(path).1];
    assert Parent(PathOf(path)) == PathOf(SplitOf(path).0);
  }

  /** The root, however it is spelled, has neither. */
  lemma SplitOfRoot(path: string)
    requires forall i | 0 <= i < |path| :: path[i] == '/'
    ensures SplitOf(path) == ("", "") && PathOf(path) == []
  {
    OnlySlashes(path);
    LastIs(path, |path| - 1, true);
  }
}
