/**
 The argument vector of the workload: `build_workload_argv` at start and `build_exec_argv` at
 restore split the configured argument string with strtok.
 */
module WorkloadArgs {
  import opened Wrappers
  import opened Common

  const ARGS_COPY := 256

  /** The string without its leading spaces. */
  function SkipSpaces(s: string): (r: string)
    ensures |r| <= |s| && r == s[|s| - |r|..]
    ensures r != [] ==> r[0] != ' '
  {
    if s != [] && s[0] == ' ' then SkipSpaces(s[1..]) else s
  }

  /** The characters before the first space. */
  function Word(s: string): (w: string)
    ensures |w| <= |s| && w == s[..|w|] && ' ' !in w
    ensures |w| < |s| ==> s[|w|] == ' '
    ensures s != [] && s[0] != ' ' ==> w != []
  {
    if s == [] || s[0] == ' ' then [] else [s[0]] + Word(s[1..])
  }

  /** All tokens that repeated strtok calls return. */
  function Tokens(s: string): seq<string>
    decreases |s|
  {
    var t := SkipSpaces(s);
    if t == [] then [] else [Word(t)] + Tokens(t[|Word(t)|..])
  }

  function WithoutSpaces(s: string): string {
    if s == [] then [] else (if s[0] == ' ' then [] else [s[0]]) + WithoutSpaces(s[1..])
  }

  function Flatten(ts: seq<string>): string {
    if ts == [] then [] else ts[0] + Flatten(ts[1..])
  }

  lemma {:induction false} SkippedAreSpaces(s: string)
    ensures forall i :: 0 <= i < |s| - |SkipSpaces(s)| ==> s[i] == ' '
  {
    if s != [] && s[0] == ' ' {
      SkippedAreSpaces(s[1..]);
      assert forall i :: 1 <= i < |s| ==> s[i] == s[1..][i - 1];
    }
  }

  lemma TokensStep(s: string)
    ensures var t := SkipSpaces(s); Tokens(s) == if t == [] then [] else [Word(t)] + Tokens(t[|Word(t)|..])
  {
  }

  lemma FlattenStep(ts: seq<string>)
    ensures Flatten(ts) == if ts == [] then [] else ts[0] + Flatten(ts[1..])
  {
  }

  lemma {:induction false} WithoutSpacesAppend(a: string, b: string)
    ensures WithoutSpaces(a + b) == WithoutSpaces(a) + WithoutSpaces(b)
  {
    if a == [] {
      assert a + b == b;
    } else {
      assert (a + b)[1..] == a[1..] + b;
      WithoutSpacesAppend(a[1..], b);
    }
  }

  lemma {:induction false} WithoutSpacesOfWord(w: string)
    requires ' ' !in w
    ensures WithoutSpaces(w) == w
  {
    if w != [] {
      assert w[0] in w;
      WithoutSpacesOfWord(w[1..]);
    }
  }

  lemma {:induction false} WithoutSpacesOfGap(g: string)
    requires forall i :: 0 <= i < |g| ==> g[i] == ' '
    ensures WithoutSpaces(g) == []
  {
    if g != [] {
      WithoutSpacesOfGap(g[1..]);
    }
  }

  /**
   Splitting loses nothing but spaces: the tokens are non-empty, hold no space, and put
   together in order they are the string's other characters.
   */
  lemma {:induction false} TokensSplit(s: string)
    ensures forall i :: 0 <= i < |Tokens(s)| ==> Tokens(s)[i] != [] && ' ' !in Tokens(s)[i]
    ensures Flatten(Tokens(s)) == WithoutSpaces(s)
    decreases |s|
  {
    hide Tokens, SkipSpaces, Word, WithoutSpaces, Flatten;
    TokensStep(s);
    FlattenStep(Tokens(s));
    var t := SkipSpaces(s);
    var gap := s[..|s| - |t|];
    assert s == gap + t;
    SkippedAreSpaces(s);
    WithoutSpacesAppend(gap, t);
    WithoutSpacesOfGap(gap);
    WithoutSpacesOfGap([]);
    if t != [] {
      var w := Word(t);
      assert t == w + t[|w|..];
      WithoutSpacesAppend(w, t[|w|..]);
      WithoutSpacesOfWord(w);
      TokensSplit(t[|w|..]);
      assert Tokens(s)[1..] == Tokens(t[|w|..]) && Tokens(s)[0] == w;
    }
  }

  /** A space-free word before a space or the end is a token. */
  lemma TokensOfWord(w: string, rest: string)
    requires w != [] && ' ' !in w && (rest == [] || rest[0] == ' ')
    ensures Tokens(w + rest) == [w] + Tokens(rest)
  {
    hide Tokens, SkipSpaces, Word;
    var s := w + rest;
    assert s[0] == w[0] && w[0] in w;
    NothingToSkip(s);
    TokensStep(s);
    WholeWord(w);
    if rest == [] {
      assert s == w;
    } else {
      WordStops(w, rest);
    }
    assert s[|w|..] == rest;
  }

  /** No two tokens are run together and none is cut: a space separates. */
  lemma TokensAtSpace(a: string, b: string)
    ensures Tokens(a + (" " + b)) == Tokens(a) + Tokens(b)
  {
    hide Tokens;
    var c := " " + b;
    assert c[1..] == b;
    TokensBefore(a, c);
  }

  /** The same for any string `c` that starts with a space. */
  lemma {:induction false} TokensBefore(a: string, c: string)
    requires c != [] && c[0] == ' '
    ensures Tokens(a + c) == Tokens(a) + Tokens(c[1..])
    decreases |a|, 1
  {
    hide Tokens, SkipSpaces, Word;
    if SkipSpaces(a) == [] {
      OnlySpaces(a, c);
    } else {
      SkipTwice(a);
      SkipTwice(a + c);
      SkipSome(a, c);
      TokensFromWord(SkipSpaces(a), c);
    }
  }

  lemma OnlySpaces(a: string, c: string)
    requires SkipSpaces(a) == [] && c != [] && c[0] == ' '
    ensures Tokens(a) == [] && Tokens(a + c) == Tokens(c[1..])
  {
    hide Tokens, SkipSpaces;
    NoTokens();
    SkipTwice(a);
    SkipTwice(a + c);
    SkipTwice(c[1..]);
    SkipAll(a, c);
    SkipStep(c);
  }

  lemma {:induction false} TokensFromWord(t: string, c: string)
    requires t != [] && t[0] != ' ' && c != [] && c[0] == ' '
    ensures Tokens(t + c) == Tokens(t) + Tokens(c[1..])
    decreases |t|, 0
  {
    hide Tokens, SkipSpaces, Word;
    var w := Word(t);
    var rest := t[|w|..];
    assert t == w + rest && t + c == w + (rest + c);
    TokensOfWord(w, rest);
    TokensOfWord(w, rest + c);
    TokensBefore(rest, c);
  }

  lemma SkipStep(s: string)
    ensures SkipSpaces(s) == if s != [] && s[0] == ' ' then SkipSpaces(s[1..]) else s
  {
  }

  lemma {:induction false} SkipAll(a: string, b: string)
    requires SkipSpaces(a) == []
    ensures SkipSpaces(a + b) == SkipSpaces(b)
  {
    hide SkipSpaces;
    SkipStep(a);
    SkipStep(a + b);
    if a == [] {
      assert a + b == b;
    } else {
      assert (a + b)[1..] == a[1..] + b;
      SkipAll(a[1..], b);
    }
  }

  lemma {:induction false} SkipSome(a: string, b: string)
    requires SkipSpaces(a) != []
    ensures SkipSpaces(a + b) == SkipSpaces(a) + b
  {
    hide SkipSpaces;
    SkipStep(a);
    SkipStep(a + b);
    if a[0] == ' ' {
      assert (a + b)[1..] == a[1..] + b;
      SkipSome(a[1..], b);
    }
  }

  lemma {:induction false} WordStops(t: string, b: string)
    requires b != [] && b[0] == ' '
    ensures Word(t + b) == Word(t)
  {
    if t == [] {
      assert t + b == b;
    } else if t[0] != ' ' {
      assert (t + b)[1..] == t[1..] + b;
      WordStops(t[1..], b);
    }
  }

  lemma {:induction false} WholeWord(w: string)
    requires ' ' !in w
    ensures Word(w) == w
  {
    if w != [] {
      assert w[0] in w;
      WholeWord(w[1..]);
    }
  }

  lemma NothingToSkip(s: string)
    ensures s == [] || s[0] != ' ' ==> SkipSpaces(s) == s
  {
  }

  lemma OneToken(w: string)
    requires w != [] && ' ' !in w
    ensures Tokens(w) == [w]
  {
    hide Tokens, SkipSpaces, Word;
    assert w[0] in w;
    WholeWord(w);
    NothingToSkip(w);
    TokensStep(w);
    NoTokens();
    assert w[|w|..] == [];
  }

  lemma NoTokens()
    ensures Tokens([]) == []
  {
    TokensStep([]);
  }

  /**
   build_workload_argv and build_exec_argv, which differ only in that the second also takes a
   null pointer for `args`: the path and the first `maxArgs - 2` tokens of the first 255
   characters.  None is the return value -1.
   */
  method BuildArgv(path: string, args: Option<string>, maxArgs: nat) returns (argv: Option<seq<string>>)
    ensures argv.None? <==> maxArgs < 2
    ensures argv.Some? ==>
      argv.value == [path] + Take(Tokens(if args.Some? then Take(args.value, 255) else []), maxArgs - 2)
  {
    hide Tokens, SkipSpaces, Word, Consumed;
    if maxArgs < 2 {
      return None;
    }
    var list := [path];
    var buffer := if args.Some? then Take(args.value, ARGS_COPY - 1) else [];
    ghost var all := Tokens(buffer);
    // What strtok has not consumed yet; a token is the word after the next spaces.
    var rest := SkipSpaces(buffer);
    SkipTwice(buffer);
    Start(path, buffer);
    while rest != [] && |list| + 1 < maxArgs
      invariant 1 <= |list| <= maxArgs - 1
      invariant rest != [] ==> rest[0] != ' '
      invariant Consumed(list, path, all, rest)
      decreases |rest|
    {
      var token := Word(rest);
      NextToken(rest);
      Consume(list, path, all, rest, token, SkipSpaces(rest[|token|..]));
      list := list + [token];
      rest := SkipSpaces(rest[|token|..]);
    }
    AllConsumed(list, path, all, rest, maxArgs);
    argv := Some(list);
  }

  /** The list is the path and the tokens before `rest`. */
  ghost predicate Consumed(list: seq<string>, path: string, all: seq<string>, rest: string) {
    list != [] && list + Tokens(rest) == [path] + all
  }

  lemma Start(path: string, buffer: string)
    ensures Consumed([path], path, Tokens(buffer), SkipSpaces(buffer))
  {
    hide Tokens, SkipSpaces;
    SkipTwice(buffer);
  }

  lemma Consume(list: seq<string>, path: string, all: seq<string>, rest: string, token: string, rest': string)
    requires Consumed(list, path, all, rest) && Tokens(rest) == [token] + Tokens(rest')
    ensures Consumed(list + [token], path, all, rest')
  {
    hide Tokens;
    assert list + ([token] + Tokens(rest')) == (list + [token]) + Tokens(rest');
  }

  lemma AllConsumed(list: seq<string>, path: string, all: seq<string>, rest: string, maxArgs: nat)
    requires Consumed(list, path, all, rest) && 1 <= |list| <= maxArgs - 1
    requires rest == [] || |list| + 1 >= maxArgs
    ensures list == [path] + Take(all, maxArgs - 2)
  {
    hide Tokens;
    NoTokens();
    assert list == ([path] + all)[..|list|];
    assert |list| - 1 <= |all|;
  }

  lemma NextToken(rest: string)
    requires rest != [] && rest[0] != ' '
    ensures Tokens(rest) == [Word(rest)] + Tokens(SkipSpaces(rest[|Word(rest)|..]))
  {
    hide Tokens, SkipSpaces, Word;
    NothingToSkip(rest);
    TokensStep(rest);
    SkipTwice(rest[|Word(rest)|..]);
  }

  lemma SkipTwice(s: string)
    ensures SkipSpaces(SkipSpaces(s)) == SkipSpaces(s)
    ensures Tokens(SkipSpaces(s)) == Tokens(s)
  {
  }
}
