/**
 config/config.go: `expandEnvVars`, one expansion that honours `${NAME:-default}` followed by
 plain expansions until nothing changes.
*/
module EnvExpansion {
  import opened Options
  import opened ShellExpand

  /** The text after n plain expansions. */
  function Iterate(env: Environment, s: string, n: nat): string {
    if n == 0 then s else Expand(Iterate(env, s, n - 1), env, false)
  }

  /** Expanding again after the n-th expansion changes nothing. */
  predicate Settles(env: Environment, s: string, n: nat) {
    Iterate(env, s, n + 1) == Iterate(env, s, n)
  }

  predicate Contains(s: string, part: string)
    requires part != ""
  {
    Find(s, part) < |s|
  }

  lemma {:induction false} SettledForGood(env: Environment, s: string, n: nat, m: nat)
    requires Settles(env, s, n) && n <= m
    ensures Iterate(env, s, m) == Iterate(env, s, n)
  {
    if n < m {
      SettledForGood(env, s, n, m - 1);
    }
  }

  lemma NotYetSettled(env: Environment, s: string, n: nat, k: nat)
    requires Settles(env, s, n) && k > 0 && Iterate(env, s, k - 1) != Iterate(env, s, k)
    ensures k <= n
  {
    if k > n {
      SettledForGood(env, s, n, k - 1);
      SettledForGood(env, s, n, k);
    }
  }

  /** Whenever it settles, it settles on the same text. */
  lemma SettledEqual(env: Environment, s: string, a: nat, b: nat)
    requires Settles(env, s, a) && Settles(env, s, b)
    ensures Iterate(env, s, a) == Iterate(env, s, b) == Expand(Iterate(env, s, b), env, false)
  {
    var late := if a < b then b else a;
    SettledForGood(env, s, a, late);
    SettledForGood(env, s, b, late);
  }

  /** The nested-reference loop: it returns the settled text after at most n + 1 expansions. */
  method ExpandNested(first: string, env: Environment, ghost n: nat) returns (text: string, passes: nat)
    requires Settles(env, first, n)
    ensures passes <= n + 1
    ensures text == Iterate(env, first, n) == Expand(text, env, false)
  {
    text := first;
    var prev := "";
    passes := 0;
    while prev != text
      invariant passes <= n + 1
      invariant text == Iterate(env, first, passes)
      invariant passes > 0 ==> prev == Iterate(env, first, passes - 1)
      invariant passes == 0 ==> prev == ""
      decreases n + 1 - passes
    {
      if passes > 0 {
        NotYetSettled(env, first, n, passes);
      }
      prev := text;
      text := Expand(text, env, false);
      passes := passes + 1;
    }
    // An empty first text never enters the loop, and is settled.
    SettledEqual(env, first, if passes > 0 then passes - 1 else 0, n);
  }

  lemma BraceOccurs(s: string)
    ensures '}' in s <==> exists i: nat :: Occurs(s, "}", i)
  {
    forall i: nat | i < |s|
      ensures Occurs(s, "}", i) <==> s[i] == '}'
    {
      assert s[i..i + 1] == [s[i]];
    }
    forall i: nat | Occurs(s, "}", i)
      ensures i < |s|
    {
    }
  }

  /**
   The method the source has, for the inputs on which it returns at all: some number n of
   expansions after the first settles. It then makes at most n + 1 of them, returns the settled
   text, which a further expansion leaves alone, or reports a syntax error for a text with an
   unclosed reference to VALID_KEY and no closing brace anywhere.
  */
  method ExpandEnvVars(s: string, env: Environment, ghost n: nat) returns (result: Option<string>, passes: nat)
    requires Settles(env, Expand(s, env, true), n)
    ensures passes <= n + 1
    ensures result.None? <==> (exists i: nat :: Occurs(s, "${VALID_KEY", i)) && '}' !in s
    ensures result.Some? ==> result.value == Iterate(env, Expand(s, env, true), n)
    ensures result.Some? ==> Expand(result.value, env, false) == result.value
  {
    var text;
    text, passes := ExpandNested(Expand(s, env, true), env, n);
    BraceOccurs(s);
    if Contains(s, "${VALID_KEY") && !Contains(s, "}") {
      return None, passes;
    }
    return Some(text), passes;
  }

  // ----- texts built from plain text and whole references

  datatype Token = Text(text: string) | Ref(name: string) | RefOr(name: string, default: string)

  predicate PlainName(name: string) {
    '}' !in name && '$' !in name && Find(name, ":-") == |name|
  }

  predicate WellFormedToken(t: Token) {
    match t
    case Text(text) => '$' !in text
    case Ref(name) => name != "" && PlainName(name)
    case RefOr(name, default) => PlainName(name) && '}' !in default && '$' !in default
  }

  predicate WellFormed(tokens: seq<Token>) {
    forall i | 0 <= i < |tokens| :: WellFormedToken(tokens[i])
  }

  predicate Plain(tokens: seq<Token>) {
    WellFormed(tokens) && forall i | 0 <= i < |tokens| :: !tokens[i].RefOr?
  }

  function RenderToken(t: Token): string {
    match t
    case Text(text) => text
    case Ref(name) => "${" + name + "}"
    case RefOr(name, default) => "${" + (name + ":-" + default) + "}"
  }

  function Join(parts: seq<string>): string {
    if parts == [] then "" else parts[0] + Join(parts[1..])
  }

  function Render(tokens: seq<Token>): string {
    Join(Parts(tokens))
  }

  function Parts(tokens: seq<Token>): (parts: seq<string>)
    ensures |parts| == |tokens| && forall i | 0 <= i < |tokens| :: parts[i] == RenderToken(tokens[i])
  {
    seq(|tokens|, i requires 0 <= i < |tokens| => RenderToken(tokens[i]))
  }

  lemma {:induction false} JoinAppend(a: seq<string>, b: seq<string>)
    ensures Join(a + b) == Join(a) + Join(b)
  {
    if a == [] {
      assert a + b == b;
    } else {
      JoinAppend(a[1..], b);
      assert a + b == [a[0]] + (a[1..] + b);
      assert (a + b)[1..] == a[1..] + b;
    }
  }

  lemma RenderAppend(a: seq<Token>, b: seq<Token>)
    ensures Render(a + b) == Render(a) + Render(b)
  {
    assert Parts(a + b) == Parts(a) + Parts(b);
    JoinAppend(Parts(a), Parts(b));
  }

  lemma RenderCons(t: Token, tokens: seq<Token>)
    ensures Render([t] + tokens) == RenderToken(t) + Render(tokens)
    ensures Render([t]) == RenderToken(t)
  {
    assert Parts([t] + tokens) == [RenderToken(t)] + Parts(tokens);
    assert Parts([t]) == [RenderToken(t)];
    assert Join([RenderToken(t)]) == RenderToken(t) + Join([]);
  }

  /** An environment whose values are such texts, without defaults. */
  type Book = map<string, seq<Token>>

  ghost predicate WellFormedBook(book: Book) {
    forall name | name in book :: Plain(book[name])
  }

  function EnvOf(book: Book): Environment {
    map name | name in book :: Render(book[name])
  }

  function Value(book: Book, name: string): seq<Token> {
    if name in book then book[name] else []
  }

  /** What one expansion makes of a token. */
  function SubstToken(book: Book, t: Token): seq<Token> {
    match t
    case Text(_) => [t]
    case Ref(name) => Value(book, name)
    case RefOr(name, default) => if Render(Value(book, name)) != "" then Value(book, name) else [Text(default)]
  }

  function Subst(book: Book, tokens: seq<Token>): seq<Token> {
    if tokens == [] then [] else SubstToken(book, tokens[0]) + Subst(book, tokens[1..])
  }

  lemma DefaultKey(name: string, default: string)
    requires Find(name, ":-") == |name|
    ensures Find(name + ":-" + default, ":-") == |name|
  {
    var key := name + ":-" + default;
    assert Occurs(key, ":-", |name|);
    forall j: nat | j < |name|
      ensures !Occurs(key, ":-", j)
    {
      if j + 2 <= |name| {
        assert key[j..j + 2] == name[j..j + 2];
        assert !Occurs(name, ":-", j);
      } else {
        assert key[j..j + 2][1] == ':';
      }
    }
  }

  lemma ExpandToken(book: Book, t: Token, rest: string, defaults: bool)
    requires WellFormedToken(t) && (t.RefOr? ==> defaults)
    ensures Expand(RenderToken(t) + rest, EnvOf(book), defaults) ==
            Render(SubstToken(book, t)) + Expand(rest, EnvOf(book), defaults)
  {
    match t
    case Text(text) =>
      ExpandText(text, rest, EnvOf(book), defaults);
      RenderCons(t, []);
    case Ref(name) =>
      ExpandReference(name, rest, EnvOf(book), defaults);
    case RefOr(name, default) =>
      var key := name + ":-" + default;
      DefaultKey(name, default);
      assert key[..|name|] == name && key[|name| + 2..] == default;
      ExpandReference(key, rest, EnvOf(book), defaults);
      RenderCons(Text(default), []);
  }

  /** Expansion works token by token. */
  lemma {:induction false} ExpandTokens(book: Book, tokens: seq<Token>, defaults: bool)
    requires WellFormed(tokens) && (!defaults ==> Plain(tokens))
    ensures Expand(Render(tokens), EnvOf(book), defaults) == Render(Subst(book, tokens))
  {
    if tokens != [] {
      var t, rest := tokens[0], tokens[1..];
      ExpandTokens(book, rest, defaults);
      assert tokens == [t] + rest;
      RenderCons(t, rest);
      ExpandToken(book, t, Render(rest), defaults);
      RenderAppend(SubstToken(book, t), Subst(book, rest));
    }
  }

  lemma {:induction false} SubstStaysPlain(book: Book, tokens: seq<Token>)
    requires WellFormedBook(book) && WellFormed(tokens)
    ensures Plain(Subst(book, tokens))
  {
    if tokens != [] {
      SubstStaysPlain(book, tokens[1..]);
    }
  }

  // ----- when expansion settles

  /** A reference whose value is itself is never expanded away. */
  predicate Final(book: Book, t: Token) {
    t.Text? || (t.Ref? && t.name in book && book[t.name] == [t])
  }

  /** Following references from the text, at most d levels deep, one arrives at text (or self references). */
  ghost predicate Resolves(book: Book, tokens: seq<Token>, d: nat)
    decreases d
  {
    forall i | 0 <= i < |tokens| ::
      Final(book, tokens[i]) || (d > 0 && !tokens[i].Text? && Resolves(book, Value(book, tokens[i].name), d - 1))
  }

  lemma {:induction false} SubstResolves(book: Book, tokens: seq<Token>, d: nat)
    requires Resolves(book, tokens, d) && d > 0
    ensures Resolves(book, Subst(book, tokens), d - 1)
  {
    if tokens != [] {
      SubstResolves(book, tokens[1..], d);
    }
  }

  lemma {:induction false} FinalStays(book: Book, tokens: seq<Token>)
    requires Resolves(book, tokens, 0)
    ensures Subst(book, tokens) == tokens
  {
    if tokens != [] {
      FinalStays(book, tokens[1..]);
    }
  }

  function SubstMany(book: Book, tokens: seq<Token>, n: nat): seq<Token> {
    if n == 0 then tokens else Subst(book, SubstMany(book, tokens, n - 1))
  }

  lemma {:induction false} IterateTokens(book: Book, tokens: seq<Token>, n: nat)
    requires WellFormedBook(book) && Plain(tokens)
    ensures Plain(SubstMany(book, tokens, n))
    ensures Iterate(EnvOf(book), Render(tokens), n) == Render(SubstMany(book, tokens, n))
  {
    if n > 0 {
      IterateTokens(book, tokens, n - 1);
      SubstStaysPlain(book, SubstMany(book, tokens, n - 1));
      ExpandTokens(book, SubstMany(book, tokens, n - 1), false);
    }
  }

  lemma {:induction false} ManyResolve(book: Book, tokens: seq<Token>, d: nat, n: nat)
    requires Resolves(book, tokens, d + n)
    ensures Resolves(book, SubstMany(book, tokens, n), d)
    decreases n
  {
    if n > 0 {
      ManyResolve(book, tokens, d + 1, n - 1);
      SubstResolves(book, SubstMany(book, tokens, n - 1), d + 1);
    }
  }

  lemma PlainTextSettles(book: Book, tokens: seq<Token>, d: nat)
    requires WellFormedBook(book) && Plain(tokens) && Resolves(book, tokens, d)
    ensures Settles(EnvOf(book), Render(tokens), d)
  {
    ManyResolve(book, tokens, 0, d);
    FinalStays(book, SubstMany(book, tokens, d));
    IterateTokens(book, tokens, d);
    IterateTokens(book, tokens, d + 1);
  }

  /**
   Termination: if the references of a text, defaults included, resolve within d levels, then
   the loop settles after d - 1 expansions and so is over within d of them (one if d is 0).
  */
  lemma ExpansionTerminates(book: Book, tokens: seq<Token>, d: nat)
    requires WellFormedBook(book) && WellFormed(tokens) && Resolves(book, tokens, d)
    ensures Settles(EnvOf(book), Expand(Render(tokens), EnvOf(book), true), if d == 0 then 0 else d - 1)
  {
    ExpandTokens(book, tokens, true);
    SubstStaysPlain(book, tokens);
    if d == 0 {
      FinalStays(book, tokens);
      PlainTextSettles(book, tokens, 0);
    } else {
      SubstResolves(book, tokens, d);
      PlainTextSettles(book, Subst(book, tokens), d - 1);
    }
  }

  /** No cycle: every value only refers to names of lower rank, or to names that are not set. */
  ghost predicate Acyclic(book: Book, rank: map<string, nat>) {
    && book.Keys <= rank.Keys
    && forall name, i | name in book && 0 <= i < |book[name]| && !book[name][i].Text? ::
         var other := book[name][i].name; other in book ==> rank[other] < rank[name]
  }

  lemma {:induction false} AcyclicResolves(book: Book, rank: map<string, nat>, tokens: seq<Token>, d: nat)
    requires Acyclic(book, rank) && d > 0
    requires forall i | 0 <= i < |tokens| && !tokens[i].Text? && tokens[i].name in book :: rank[tokens[i].name] + 2 <= d
    ensures Resolves(book, tokens, d)
    decreases d
  {
    forall i | 0 <= i < |tokens| && !tokens[i].Text?
      ensures Resolves(book, Value(book, tokens[i].name), d - 1)
    {
      if tokens[i].name in book {
        AcyclicResolves(book, rank, book[tokens[i].name], d - 1);
      }
    }
  }

  /** Without a reference cycle the loop always ends, within as many expansions as there are levels. */
  lemma AcyclicExpansionTerminates(book: Book, rank: map<string, nat>, tokens: seq<Token>, d: nat)
    requires WellFormedBook(book) && WellFormed(tokens) && Acyclic(book, rank) && d > 0
    requires forall i | 0 <= i < |tokens| && !tokens[i].Text? && tokens[i].name in book :: rank[tokens[i].name] + 2 <= d
    ensures Settles(EnvOf(book), Expand(Render(tokens), EnvOf(book), true), d - 1)
  {
    AcyclicResolves(book, rank, tokens, d);
    ExpansionTerminates(book, tokens, d);
  }

  /**
   A reference as default, `${a:-${b}}`. The name found runs to the first closing brace, so the
   second one is left over in the text: exactly when a is set to something, it stays behind its
   value; otherwise it closes the default again, which the next expansion then resolves.
  */
  lemma NestedDefaultLeavesBrace(a: string, b: string, env: Environment)
    requires PlainName(a) && '}' !in b
    ensures var text := Expand("${" + (a + ":-" + ("${" + b)) + "}" + "}", env, true);
      && (text == Getenv(env, a) + "}" <==> Getenv(env, a) != "")
      && (Getenv(env, a) == "" ==> text == "${" + b + "}")
      && (Getenv(env, a) == "" && b != "" ==> Expand(text, env, false) == Getenv(env, b))
  {
    var key := a + ":-" + ("${" + b);
    DefaultKey(a, "${" + b);
    assert key[..|a|] == a && key[|a| + 2..] == "${" + b;
    ExpandReference(key, "}", env, true);
    assert "}"[1..] == "";
    assert Expand("", env, true) == "" == Expand("", env, false);
    if Getenv(env, a) == "" && b != "" {
      ExpandReference(b, "", env, false);
      assert "${" + b + "}" + "" == "${" + b + "}";
    }
  }
}
