/**
 config/config.go: exactly when the loop of `expandEnvVars` ends, for every environment whose
 values are plain text and whole references.
*/
module EnvTermination {
  import opened ShellExpand
  import opened EnvExpansion

  // ----- what a text shows of the tokens it was made of

  /** The names referred to, in order. */
  function Names(tokens: seq<Token>): seq<string> {
    if tokens == [] then []
    else if tokens[0].Ref? then [tokens[0].name] + Names(tokens[1..])
    else Names(tokens[1..])
  }

  function TextSize(tokens: seq<Token>): nat {
    if tokens == [] then 0 else (if tokens[0].Text? then |tokens[0].text| else 0) + TextSize(tokens[1..])
  }

  lemma {:induction false} Appended(a: seq<Token>, b: seq<Token>)
    ensures Names(a + b) == Names(a) + Names(b) && TextSize(a + b) == TextSize(a) + TextSize(b)
  {
    if a == [] {
      assert a + b == b;
    } else {
      Appended(a[1..], b);
      assert (a + b)[1..] == a[1..] + b;
    }
  }

  /** The same names, read off the text. */
  function NamesIn(s: string): seq<string> {
    if s == "" then []
    else if s[0] == '$' && |s| > 1 then
      var (name, width) := ShellName(s[1..]);
      [name] + NamesIn(s[1 + width..])
    else NamesIn(s[1..])
  }

  lemma {:induction false} NamesInText(text: string, rest: string)
    requires '$' !in text
    ensures NamesIn(text + rest) == NamesIn(rest)
  {
    if text == "" {
      assert text + rest == rest;
    } else {
      NamesInText(text[1..], rest);
      assert (text + rest)[1..] == text[1..] + rest;
    }
  }

  lemma NamesInReference(name: string, rest: string)
    requires name != "" && '}' !in name
    ensures NamesIn("${" + name + "}" + rest) == [name] + NamesIn(rest)
  {
    ReferenceName(name, rest);
    var s := "${" + name + "}" + rest;
    assert s[1..] == "{" + name + "}" + rest;
    assert s[1 + (|name| + 2)..] == rest;
  }

  lemma {:induction false} NamesAreVisible(tokens: seq<Token>)
    requires Plain(tokens)
    ensures NamesIn(Render(tokens)) == Names(tokens)
  {
    if tokens != [] {
      var t, rest := tokens[0], tokens[1..];
      assert tokens == [t] + rest;
      RenderCons(t, rest);
      NamesAreVisible(rest);
      match t
      case Text(text) => NamesInText(text, Render(rest));
      case Ref(name) => NamesInReference(name, Render(rest));
    }
  }

  lemma {:induction false} StrippedSize(tokens: seq<Token>)
    requires Plain(tokens)
    ensures |Render(Subst(map[], tokens))| == TextSize(tokens)
  {
    if tokens != [] {
      var t, rest := tokens[0], tokens[1..];
      StrippedSize(rest);
      RenderAppend(SubstToken(map[], t), Subst(map[], rest));
      RenderCons(t, []);
    }
  }

  lemma EqualTexts(a: seq<Token>, b: seq<Token>)
    requires Plain(a) && Plain(b) && Render(a) == Render(b)
    ensures Names(a) == Names(b) && TextSize(a) == TextSize(b)
  {
    NamesAreVisible(a);
    NamesAreVisible(b);
    StrippedSize(a);
    StrippedSize(b);
    ExpandTokens(map[], a, false);
    ExpandTokens(map[], b, false);
  }

  // ----- references that disappear

  /** Nothing but empty text, and references of which nothing is left within d levels. */
  ghost predicate Dead(book: Book, tokens: seq<Token>, d: nat)
    decreases d
  {
    forall i | 0 <= i < |tokens| ::
      if tokens[i].Text? then tokens[i].text == "" else d > 0 && Dead(book, Value(book, tokens[i].name), d - 1)
  }

  ghost predicate Vanishes(book: Book, name: string) {
    exists d: nat :: Dead(book, Value(book, name), d)
  }

  /** The names that do not vanish. */
  ghost function Live(book: Book, names: seq<string>): seq<string> {
    if names == [] then []
    else if Vanishes(book, names[0]) then Live(book, names[1..])
    else [names[0]] + Live(book, names[1..])
  }

  lemma LiveFirst(book: Book, t: Token, rest: seq<Token>)
    ensures Live(book, Names([t] + rest)) ==
            (if t.Ref? && !Vanishes(book, t.name) then [t.name] else []) + Live(book, Names(rest))
    ensures TextSize([t] + rest) == (if t.Text? then |t.text| else 0) + TextSize(rest)
  {
    assert ([t] + rest)[1..] == rest;
    assert t.Ref? ==> Names([t] + rest)[1..] == Names(rest);
  }

  lemma {:induction false} LiveAppended(book: Book, a: seq<string>, b: seq<string>)
    ensures Live(book, a + b) == Live(book, a) + Live(book, b)
  {
    if a == [] {
      assert a + b == b;
    } else {
      LiveAppended(book, a[1..], b);
      assert (a + b)[1..] == a[1..] + b;
    }
  }

  lemma {:induction false} DeadForLonger(book: Book, tokens: seq<Token>, d: nat, e: nat)
    requires Dead(book, tokens, d) && d <= e
    ensures Dead(book, tokens, e)
    decreases d
  {
    forall i | 0 <= i < |tokens| && !tokens[i].Text?
      ensures Dead(book, Value(book, tokens[i].name), e - 1)
    {
      DeadForLonger(book, Value(book, tokens[i].name), d - 1, e - 1);
    }
  }

  /** Without text and without live names all is dead, within some number of levels for all. */
  lemma {:induction false} NothingLives(book: Book, tokens: seq<Token>) returns (d: nat)
    requires Plain(tokens) && TextSize(tokens) == 0 && Live(book, Names(tokens)) == []
    ensures Dead(book, tokens, d)
  {
    d := 0;
    if tokens != [] {
      var t, rest := tokens[0], tokens[1..];
      assert tokens == [t] + rest;
      LiveFirst(book, t, rest);
      var e := NothingLives(book, rest);
      if t.Text? {
        d := e;
      } else {
        var k: nat :| Dead(book, Value(book, t.name), k);
        d := if k + 1 < e then e else k + 1;
        DeadForLonger(book, rest, e, d);
        DeadForLonger(book, Value(book, t.name), k, d - 1);
      }
      assert forall i | 0 < i < |tokens| :: tokens[i] == rest[i - 1];
    }
  }

  lemma {:induction false} DeadHasNoLiveNames(book: Book, tokens: seq<Token>, d: nat)
    requires Plain(tokens) && Dead(book, tokens, d)
    ensures Live(book, Names(tokens)) == [] && TextSize(tokens) == 0
    decreases tokens
  {
    if tokens != [] {
      var t, rest := tokens[0], tokens[1..];
      assert tokens == [t] + rest;
      LiveFirst(book, t, rest);
      DeadHasNoLiveNames(book, rest, d);
      assert t.Ref? ==> Dead(book, Value(book, t.name), d - 1);
    }
  }

  // ----- where expansion can come to rest

  /** Nothing is left of the name's value but the name itself. */
  ghost predicate Lone(book: Book, name: string) {
    TextSize(Value(book, name)) == 0 && Live(book, Names(Value(book, name))) == [name]
  }

  /** Text, a reference of which nothing is left, or one of which just itself is; or a default. */
  ghost predicate AtRest(book: Book, t: Token) {
    || t.Text?
    || (t.RefOr? && Render(Value(book, t.name)) == "")
    || Vanishes(book, t.name)
    || Lone(book, t.name)
  }

  /** Following references from the text, at most d levels deep, one arrives at tokens at rest. */
  ghost predicate Rests(book: Book, tokens: seq<Token>, d: nat)
    decreases d
  {
    forall i | 0 <= i < |tokens| ::
      AtRest(book, tokens[i]) || (d > 0 && Rests(book, Value(book, tokens[i].name), d - 1))
  }

  ghost predicate ComesToRest(book: Book, tokens: seq<Token>) {
    exists d: nat :: Rests(book, tokens, d)
  }

  // ----- a text that expansion leaves alone is at rest

  lemma {:induction false} TextOnlyGrows(book: Book, tokens: seq<Token>)
    requires Plain(tokens)
    ensures TextSize(Subst(book, tokens)) >= TextSize(tokens)
    ensures TextSize(Subst(book, tokens)) == TextSize(tokens) ==>
            forall i | 0 <= i < |tokens| && tokens[i].Ref? :: TextSize(Value(book, tokens[i].name)) == 0
  {
    if tokens != [] {
      TextOnlyGrows(book, tokens[1..]);
      Appended(SubstToken(book, tokens[0]), Subst(book, tokens[1..]));
    }
  }

  /** No reference stands for text. */
  ghost predicate Textless(book: Book, tokens: seq<Token>) {
    forall i | 0 <= i < |tokens| && tokens[i].Ref? :: TextSize(Value(book, tokens[i].name)) == 0
  }

  /** The live names a token yields: none if it vanishes, and otherwise at least one. */
  lemma Yield(book: Book, name: string)
    requires WellFormedBook(book) && TextSize(Value(book, name)) == 0
    ensures Vanishes(book, name) <==> Live(book, Names(Value(book, name))) == []
  {
    if Vanishes(book, name) {
      var d: nat :| Dead(book, Value(book, name), d);
      DeadHasNoLiveNames(book, Value(book, name), d);
    } else if Live(book, Names(Value(book, name))) == [] {
      var d := NothingLives(book, Value(book, name));
    }
  }

  /** What one expansion makes of the live names of a text, token by token. */
  lemma LiveStep(book: Book, t: Token, rest: seq<Token>)
    requires !t.RefOr?
    ensures Live(book, Names(Subst(book, [t] + rest))) ==
            (if t.Ref? then Live(book, Names(Value(book, t.name))) else []) + Live(book, Names(Subst(book, rest)))
  {
    var tokens := [t] + rest;
    assert Subst(book, tokens) == SubstToken(book, t) + Subst(book, rest);
    Appended(SubstToken(book, t), Subst(book, rest));
    LiveAppended(book, Names(SubstToken(book, t)), Names(Subst(book, rest)));
  }

  lemma {:induction false} LiveOnlyGrows(book: Book, tokens: seq<Token>)
    requires WellFormedBook(book) && Plain(tokens) && Textless(book, tokens)
    ensures |Live(book, Names(Subst(book, tokens)))| >= |Live(book, Names(tokens))|
  {
    if tokens != [] {
      var t, rest := tokens[0], tokens[1..];
      assert tokens == [t] + rest;
      LiveOnlyGrows(book, rest);
      LiveStep(book, t, rest);
      LiveFirst(book, t, rest);
      if t.Ref? {
        Yield(book, t.name);
      }
    }
  }

  /** Equal sums of which no part has shrunk are equal part by part. */
  lemma SameParts(a: seq<string>, b: seq<string>, c: seq<string>, d: seq<string>)
    requires a + b == c + d && |a| >= |c| && |b| >= |d|
    ensures a == c && b == d
  {
    assert |a| == |c|;
    assert (a + b)[..|a|] == a && (c + d)[..|c|] == c;
    assert (a + b)[|a|..] == b && (c + d)[|c|..] == d;
  }

  /** If the live names stay as they are, each one yields itself. */
  lemma {:induction false} LiveInPlace(book: Book, tokens: seq<Token>)
    requires WellFormedBook(book) && Plain(tokens) && Textless(book, tokens)
    requires Live(book, Names(Subst(book, tokens))) == Live(book, Names(tokens))
    ensures forall i | 0 <= i < |tokens| :: AtRest(book, tokens[i])
  {
    if tokens != [] {
      var t, rest := tokens[0], tokens[1..];
      assert tokens == [t] + rest;
      LiveOnlyGrows(book, rest);
      LiveStep(book, t, rest);
      LiveFirst(book, t, rest);
      if t.Ref? {
        Yield(book, t.name);
        SameParts(Live(book, Names(Value(book, t.name))), Live(book, Names(Subst(book, rest))),
                  if Vanishes(book, t.name) then [] else [t.name], Live(book, Names(rest)));
      }
      LiveInPlace(book, rest);
    }
  }

  lemma FixpointIsAtRest(book: Book, tokens: seq<Token>)
    requires WellFormedBook(book) && Plain(tokens)
    requires Render(Subst(book, tokens)) == Render(tokens)
    ensures Rests(book, tokens, 0)
  {
    SubstStaysPlain(book, tokens);
    EqualTexts(Subst(book, tokens), tokens);
    TextOnlyGrows(book, tokens);
    LiveInPlace(book, tokens);
  }

  // ----- and back to the text that expansion started with

  lemma {:induction false} SubstRestsBack(book: Book, tokens: seq<Token>, d: nat)
    requires Rests(book, Subst(book, tokens), d)
    ensures Rests(book, tokens, d + 1)
  {
    if tokens != [] {
      var t, rest := tokens[0], tokens[1..];
      var head, tail := SubstToken(book, t), Subst(book, rest);
      assert forall i | 0 <= i < |head| :: head[i] == (head + tail)[i];
      assert forall i | 0 <= i < |tail| :: tail[i] == (head + tail)[|head| + i];
      SubstRestsBack(book, rest, d);
      assert !AtRest(book, t) ==> head == Value(book, t.name) && Rests(book, head, d);
    }
  }

  lemma {:induction false} SubstManyShift(book: Book, tokens: seq<Token>, n: nat)
    ensures SubstMany(book, tokens, n + 1) == SubstMany(book, Subst(book, tokens), n)
  {
    if n > 0 {
      SubstManyShift(book, tokens, n - 1);
    }
  }

  /** The (n + 1)-st expansion of the tokens does not show in the text. */
  predicate Still(book: Book, tokens: seq<Token>, n: nat) {
    Render(SubstMany(book, tokens, n + 1)) == Render(SubstMany(book, tokens, n))
  }

  lemma StillShift(book: Book, tokens: seq<Token>, n: nat)
    requires Still(book, tokens, n + 1)
    ensures Still(book, Subst(book, tokens), n)
  {
    SubstManyShift(book, tokens, n + 1);
    SubstManyShift(book, tokens, n);
  }

  lemma StillIsAtRest(book: Book, tokens: seq<Token>)
    requires WellFormedBook(book) && Plain(tokens) && Still(book, tokens, 0)
    ensures Rests(book, tokens, 0)
  {
    assert SubstMany(book, tokens, 1) == Subst(book, SubstMany(book, tokens, 0));
    FixpointIsAtRest(book, tokens);
  }

  lemma {:induction false} StillRests(book: Book, tokens: seq<Token>, n: nat)
    requires WellFormedBook(book) && Plain(tokens) && Still(book, tokens, n)
    ensures Rests(book, tokens, n)
    decreases n
  {
    if n == 0 {
      StillIsAtRest(book, tokens);
    } else {
      SubstStaysPlain(book, tokens);
      StillShift(book, tokens, n - 1);
      StillRests(book, Subst(book, tokens), n - 1);
      SubstRestsBack(book, tokens, n - 1);
    }
  }

  // ----- a text that comes to rest settles

  lemma Associative<T>(a: seq<T>, b: seq<T>, c: seq<T>)
    ensures a + (b + c) == (a + b) + c
  {
  }

  lemma SubstCons(book: Book, t: Token, rest: seq<Token>)
    ensures Subst(book, [t] + rest) == SubstToken(book, t) + Subst(book, rest)
  {
    assert ([t] + rest)[1..] == rest;
  }

  lemma {:induction false} SubstAppended(book: Book, a: seq<Token>, b: seq<Token>)
    ensures Subst(book, a + b) == Subst(book, a) + Subst(book, b)
  {
    if a == [] {
      assert a + b == b;
    } else {
      var t, rest := a[0], a[1..];
      assert a + b == [t] + (rest + b);
      SubstCons(book, t, rest + b);
      SubstAppended(book, rest, b);
      Associative(SubstToken(book, t), Subst(book, rest), Subst(book, b));
    }
  }

  /** The parts of a text expand on their own. */
  lemma {:induction false} IterateAppended(book: Book, a: seq<Token>, b: seq<Token>, n: nat)
    requires WellFormedBook(book) && Plain(a) && Plain(b)
    ensures var env := EnvOf(book);
      Iterate(env, Render(a + b), n) == Iterate(env, Render(a), n) + Iterate(env, Render(b), n)
  {
    ManyAppended(book, a, b, n);
    IterateTokens(book, a, n);
    IterateTokens(book, b, n);
    IterateTokens(book, a + b, n);
    RenderAppend(SubstMany(book, a, n), SubstMany(book, b, n));
  }

  lemma {:induction false} ManyAppended(book: Book, a: seq<Token>, b: seq<Token>, n: nat)
    ensures SubstMany(book, a + b, n) == SubstMany(book, a, n) + SubstMany(book, b, n)
  {
    if n > 0 {
      ManyAppended(book, a, b, n - 1);
      SubstAppended(book, SubstMany(book, a, n - 1), SubstMany(book, b, n - 1));
    }
  }

  /** The first of n + 1 expansions makes of a reference what its value is. */
  lemma IterateReference(book: Book, name: string, n: nat)
    requires WellFormedBook(book) && WellFormedToken(Ref(name))
    ensures Iterate(EnvOf(book), Render([Ref(name)]), n + 1) == Iterate(EnvOf(book), Render(Value(book, name)), n)
  {
    assert Subst(book, [Ref(name)]) == Value(book, name);
    SubstManyShift(book, [Ref(name)], n);
    IterateTokens(book, [Ref(name)], n + 1);
    IterateTokens(book, Value(book, name), n);
  }

  lemma {:induction false} DeadSubst(book: Book, tokens: seq<Token>, d: nat)
    requires Plain(tokens) && Dead(book, tokens, d) && d > 0
    ensures Dead(book, Subst(book, tokens), d - 1)
  {
    if tokens != [] {
      DeadSubst(book, tokens[1..], d);
    }
  }

  lemma {:induction false} NoText(tokens: seq<Token>)
    requires forall i | 0 <= i < |tokens| :: tokens[i] == Text("")
    ensures Render(tokens) == ""
  {
    if tokens != [] {
      assert tokens == [tokens[0]] + tokens[1..];
      RenderCons(tokens[0], tokens[1..]);
      NoText(tokens[1..]);
    }
  }

  lemma {:induction false} DeadSubstMany(book: Book, tokens: seq<Token>, d: nat, n: nat)
    requires WellFormedBook(book) && Plain(tokens) && Dead(book, tokens, d + n)
    ensures Plain(SubstMany(book, tokens, n)) && Dead(book, SubstMany(book, tokens, n), d)
    decreases n
  {
    if n > 0 {
      DeadSubstMany(book, tokens, d + 1, n - 1);
      SubstStaysPlain(book, SubstMany(book, tokens, n - 1));
      DeadSubst(book, SubstMany(book, tokens, n - 1), d + 1);
    }
  }

  /** Of a dead text nothing is left after d expansions. */
  lemma DeadEnds(book: Book, tokens: seq<Token>, d: nat, n: nat)
    requires WellFormedBook(book) && Plain(tokens) && Dead(book, tokens, d) && d <= n
    ensures Iterate(EnvOf(book), Render(tokens), n) == ""
  {
    DeadForLonger(book, tokens, d, n);
    DeadSubstMany(book, tokens, 0, n);
    NoText(SubstMany(book, tokens, n));
    IterateTokens(book, tokens, n);
  }

  /** Where the one live name is, in a text without text. */
  lemma {:induction false} LonePosition(book: Book, tokens: seq<Token>, name: string) returns (k: nat)
    requires Plain(tokens) && TextSize(tokens) == 0 && Live(book, Names(tokens)) == [name]
    ensures k < |tokens| && tokens[k] == Ref(name)
    ensures TextSize(tokens[..k]) == 0 && Live(book, Names(tokens[..k])) == []
    ensures TextSize(tokens[k + 1..]) == 0 && Live(book, Names(tokens[k + 1..])) == []
  {
    var t, rest := tokens[0], tokens[1..];
    assert tokens == [t] + rest;
    LiveFirst(book, t, rest);
    if t.Ref? && !Vanishes(book, t.name) {
      k := 0;
      assert ([t.name] + Live(book, Names(rest)))[0] == t.name;
      assert t == Ref(name);
    } else {
      var m := LonePosition(book, rest, name);
      k := m + 1;
      assert tokens[..k] == [t] + rest[..m] && tokens[k + 1..] == rest[m + 1..];
      LiveFirst(book, t, rest[..m]);
    }
  }

  lemma LoneSettles(book: Book, name: string) returns (n: nat)
    requires WellFormedBook(book) && WellFormedToken(Ref(name)) && Lone(book, name)
    ensures Settles(EnvOf(book), Render([Ref(name)]), n)
  {
    var value := Value(book, name);
    var k := LonePosition(book, value, name);
    var before, after := value[..k], value[k + 1..];
    var d := NothingLives(book, before);
    var e := NothingLives(book, after);
    n := if d < e then e else d;
    assert value == before + ([Ref(name)] + after);
    IterateReference(book, name, n);
    IterateAppended(book, before, [Ref(name)] + after, n);
    IterateAppended(book, [Ref(name)], after, n);
    DeadEnds(book, before, d, n);
    DeadEnds(book, after, e, n);
  }

  lemma SettledLater(env: Environment, s: string, n: nat, k: nat)
    requires Settles(env, s, n) && n <= k
    ensures Settles(env, s, k)
  {
    SettledForGood(env, s, n, k);
    SettledForGood(env, s, n, k + 1);
  }

  lemma SettleTogether(book: Book, a: seq<Token>, n: nat, b: seq<Token>, m: nat)
    requires WellFormedBook(book) && Plain(a) && Plain(b)
    requires Settles(EnvOf(book), Render(a), n) && Settles(EnvOf(book), Render(b), m)
    ensures Settles(EnvOf(book), Render(a + b), if n < m then m else n)
  {
    var k := if n < m then m else n;
    SettledLater(EnvOf(book), Render(a), n, k);
    SettledLater(EnvOf(book), Render(b), m, k);
    SettleAtOnce(book, a, b, k);
  }

  lemma SettleAtOnce(book: Book, a: seq<Token>, b: seq<Token>, k: nat)
    requires WellFormedBook(book) && Plain(a) && Plain(b)
    requires Settles(EnvOf(book), Render(a), k) && Settles(EnvOf(book), Render(b), k)
    ensures Settles(EnvOf(book), Render(a + b), k)
  {
    IterateAppended(book, a, b, k);
    IterateAppended(book, a, b, k + 1);
  }

  lemma ReferenceSettles(book: Book, name: string, n: nat)
    requires WellFormedBook(book) && WellFormedToken(Ref(name))
    requires Settles(EnvOf(book), Render(Value(book, name)), n)
    ensures Settles(EnvOf(book), Render([Ref(name)]), n + 1)
  {
    IterateReference(book, name, n);
    IterateReference(book, name, n + 1);
  }

  lemma TextSettles(book: Book, text: string)
    requires WellFormedBook(book) && WellFormedToken(Text(text))
    ensures Settles(EnvOf(book), Render([Text(text)]), 0)
  {
    var tokens := [Text(text)];
    assert Subst(book, tokens) == tokens;
    assert SubstMany(book, tokens, 1) == Subst(book, SubstMany(book, tokens, 0));
    IterateTokens(book, tokens, 0);
    IterateTokens(book, tokens, 1);
  }

  lemma VanishingSettles(book: Book, name: string) returns (n: nat)
    requires WellFormedBook(book) && WellFormedToken(Ref(name)) && Vanishes(book, name)
    ensures Settles(EnvOf(book), Render([Ref(name)]), n)
  {
    var k: nat :| Dead(book, Value(book, name), k);
    DeadEnds(book, Value(book, name), k, k);
    DeadEnds(book, Value(book, name), k, k + 1);
    ReferenceSettles(book, name, k);
    n := k + 1;
  }

  lemma {:induction false} RestsSettle(book: Book, tokens: seq<Token>, d: nat) returns (n: nat)
    requires WellFormedBook(book) && Plain(tokens) && Rests(book, tokens, d)
    ensures Settles(EnvOf(book), Render(tokens), n)
    decreases d, |tokens|
  {
    if tokens == [] {
      return 0;
    }
    var t, rest := tokens[0], tokens[1..];
    assert tokens == [t] + rest;
    var k := RestSettles(book, t, d);
    var m := RestsSettle(book, rest, d);
    SettleTogether(book, [t], k, rest, m);
    n := if k < m then m else k;
  }

  lemma {:induction false} RestSettles(book: Book, t: Token, d: nat) returns (n: nat)
    requires WellFormedBook(book) && Plain([t]) && Rests(book, [t], d)
    ensures Settles(EnvOf(book), Render([t]), n)
    decreases d, 0
  {
    assert WellFormedToken([t][0]) && [t][0] == t;
    if t.Text? {
      n := 0;
      TextSettles(book, t.text);
    } else if Lone(book, t.name) {
      n := LoneSettles(book, t.name);
    } else if Vanishes(book, t.name) {
      n := VanishingSettles(book, t.name);
    } else {
      var k := RestsSettle(book, Value(book, t.name), d - 1);
      ReferenceSettles(book, t.name, k);
      n := k + 1;
    }
  }

  /** One expansion away from a text at rest is a text at rest. */
  lemma {:induction false} SubstRests(book: Book, tokens: seq<Token>, d: nat)
    requires WellFormedBook(book) && WellFormed(tokens) && Rests(book, tokens, d)
    ensures Rests(book, Subst(book, tokens), d)
  {
    if tokens != [] {
      var t, rest := tokens[0], tokens[1..];
      SubstRests(book, rest, d);
      if t.Ref? || (t.RefOr? && Render(Value(book, t.name)) != "") {
        assert [t][0] == tokens[0];
        ValueRests(book, t, d);
      }
    }
  }

  lemma ValueRests(book: Book, t: Token, d: nat)
    requires WellFormedBook(book) && !t.Text? && Rests(book, [t], d)
    requires t.RefOr? ==> Render(Value(book, t.name)) != ""
    ensures Rests(book, Value(book, t.name), d)
  {
    var value := Value(book, t.name);
    assert [t][0] == t;
    if Vanishes(book, t.name) {
      var k: nat :| Dead(book, value, k);
      forall i | 0 <= i < |value|
        ensures AtRest(book, value[i])
      {
        assert !value[i].Text? ==> Dead(book, Value(book, value[i].name), k - 1);
      }
    } else if Lone(book, t.name) {
      LiveNamesOf(book, value);
    } else {
      RestsForLonger(book, value, d - 1, d);
    }
  }

  lemma {:induction false} LiveNamesOf(book: Book, tokens: seq<Token>)
    requires Plain(tokens)
    ensures forall i | 0 <= i < |tokens| && tokens[i].Ref? && !Vanishes(book, tokens[i].name) ::
      tokens[i].name in Live(book, Names(tokens))
  {
    if tokens != [] {
      assert tokens == [tokens[0]] + tokens[1..];
      LiveFirst(book, tokens[0], tokens[1..]);
      LiveNamesOf(book, tokens[1..]);
    }
  }

  lemma {:induction false} RestsForLonger(book: Book, tokens: seq<Token>, d: nat, e: nat)
    requires Rests(book, tokens, d) && d <= e
    ensures Rests(book, tokens, e)
    decreases d
  {
    forall i | 0 <= i < |tokens| && !AtRest(book, tokens[i])
      ensures e > 0 && Rests(book, Value(book, tokens[i].name), e - 1)
    {
      RestsForLonger(book, Value(book, tokens[i].name), d - 1, e - 1);
    }
  }

  // ----- main results

  /** The loop of `expandEnvVars` ends on this text. */
  ghost predicate LoopEnds(book: Book, tokens: seq<Token>) {
    exists n: nat :: Settles(EnvOf(book), Expand(Render(tokens), EnvOf(book), true), n)
  }

  /**
   Plain expansion settles exactly when, followed from the text, the references come to rest
   within some number of levels: at text, at a reference of which nothing is left in the end,
   or at one of whose value nothing is left but the reference itself.
  */
  lemma SettlesExactlyWhenAtRest(book: Book, tokens: seq<Token>)
    requires WellFormedBook(book) && Plain(tokens)
    ensures (exists n: nat :: Settles(EnvOf(book), Render(tokens), n)) <==> ComesToRest(book, tokens)
  {
    if n: nat :| Settles(EnvOf(book), Render(tokens), n) {
      IterateTokens(book, tokens, n);
      IterateTokens(book, tokens, n + 1);
      StillRests(book, tokens, n);
    }
    if d: nat :| Rests(book, tokens, d) {
      var n := RestsSettle(book, tokens, d);
    }
  }

  /** The whole loop, on a text with references and defaults, ends exactly when that comes to rest. */
  lemma LoopEndsExactlyWhenAtRest(book: Book, tokens: seq<Token>)
    requires WellFormedBook(book) && WellFormed(tokens)
    ensures LoopEnds(book, tokens) <==> ComesToRest(book, tokens)
  {
    ExpandTokens(book, tokens, true);
    SubstStaysPlain(book, tokens);
    SettlesExactlyWhenAtRest(book, Subst(book, tokens));
    if d: nat :| Rests(book, Subst(book, tokens), d) {
      SubstRestsBack(book, tokens, d);
    }
    if d: nat :| Rests(book, tokens, d) {
      SubstRests(book, tokens, d);
    }
  }

  // ----- where no reference disappears

  /** Every value is made of non-empty text and references to names that are set. */
  ghost predicate NothingVanishes(book: Book) {
    && WellFormedBook(book)
    && forall name | name in book ::
         book[name] != [] && Anchored(book, book[name])
         && forall i | 0 <= i < |book[name]| && book[name][i].Text? :: book[name][i].text != ""
  }

  predicate Anchored(book: Book, tokens: seq<Token>) {
    forall i | 0 <= i < |tokens| && tokens[i].Ref? :: tokens[i].name in book
  }

  lemma {:induction false} NeverDead(book: Book, name: string, d: nat)
    requires NothingVanishes(book) && name in book
    ensures !Dead(book, book[name], d)
    decreases d
  {
    var first := book[name][0];
    if d > 0 && first.Ref? {
      NeverDead(book, first.name, d - 1);
    }
  }

  lemma {:induction false} AllLive(book: Book, tokens: seq<Token>)
    requires NothingVanishes(book) && Plain(tokens) && Anchored(book, tokens) && TextSize(tokens) == 0
    requires forall i | 0 <= i < |tokens| && tokens[i].Text? :: tokens[i].text != ""
    ensures |Live(book, Names(tokens))| == |tokens|
    ensures tokens != [] ==> tokens[0].Ref? && Live(book, Names(tokens))[0] == tokens[0].name
  {
    if tokens != [] {
      assert tokens == [tokens[0]] + tokens[1..];
      LiveFirst(book, tokens[0], tokens[1..]);
      AllLive(book, tokens[1..]);
      if d: nat :| Dead(book, book[tokens[0].name], d) {
        NeverDead(book, tokens[0].name, d);
      }
    }
  }

  /** Then a name of which just itself is left has itself for its value. */
  lemma LoneIsSelf(book: Book, name: string)
    requires NothingVanishes(book) && name in book
    ensures !Vanishes(book, name)
    ensures Lone(book, name) <==> book[name] == [Ref(name)]
  {
    if d: nat :| Dead(book, book[name], d) {
      NeverDead(book, name, d);
    }
    if Lone(book, name) || book[name] == [Ref(name)] {
      assert book[name] == [Ref(name)] ==> Names(book[name]) == [name];
      AllLive(book, book[name]);
    }
  }

  lemma {:induction false} RestsResolves(book: Book, tokens: seq<Token>, d: nat)
    requires NothingVanishes(book) && Anchored(book, tokens) && Rests(book, tokens, d)
    ensures Resolves(book, tokens, d + 1)
    decreases d
  {
    forall i | 0 <= i < |tokens| && !tokens[i].Text? && tokens[i].name in book
      ensures Resolves(book, book[tokens[i].name], d)
    {
      LoneIsSelf(book, tokens[i].name);
      ValueIsNotEmpty(book, tokens[i].name);
      if !AtRest(book, tokens[i]) {
        RestsResolves(book, book[tokens[i].name], d - 1);
      }
    }
  }

  lemma {:induction false} ResolvesRests(book: Book, tokens: seq<Token>, d: nat)
    requires NothingVanishes(book) && Resolves(book, tokens, d)
    ensures Rests(book, tokens, d)
    decreases d
  {
    forall i | 0 <= i < |tokens| && !AtRest(book, tokens[i])
      ensures d > 0 && Rests(book, Value(book, tokens[i].name), d - 1)
    {
      if Final(book, tokens[i]) {
        LoneIsSelf(book, tokens[i].name);
      } else {
        ResolvesRests(book, Value(book, tokens[i].name), d - 1);
      }
    }
  }

  lemma {:induction false} ValueIsNotEmpty(book: Book, name: string)
    requires NothingVanishes(book) && name in book
    ensures Render(book[name]) != ""
  {
    var t, rest := book[name][0], book[name][1..];
    assert book[name] == [t] + rest;
    RenderCons(t, rest);
  }

  /** Followed from the text, all references end after some number of levels. */
  ghost predicate Resolvable(book: Book, tokens: seq<Token>) {
    exists d: nat :: Resolves(book, tokens, d)
  }

  /**
   Where no reference disappears, the loop ends exactly when the references reach plain text,
   or a name whose value is a reference to itself. Any other cycle runs forever.
  */
  lemma LoopEndsExactlyWhenResolvable(book: Book, tokens: seq<Token>)
    requires NothingVanishes(book) && WellFormed(tokens) && Anchored(book, tokens)
    ensures LoopEnds(book, tokens) <==> Resolvable(book, tokens)
  {
    LoopEndsExactlyWhenAtRest(book, tokens);
    if d: nat :| Rests(book, tokens, d) {
      RestsResolves(book, tokens, d);
    }
    if d: nat :| Resolves(book, tokens, d) {
      ResolvesRests(book, tokens, d);
    }
  }

  /** Two names referring to each other: the loop never ends, although one self reference would. */
  lemma MutualReferencesRunForever(a: string, b: string)
    requires a != b && a != "" && b != "" && PlainName(a) && PlainName(b)
    ensures var book := map[a := [Ref(b)], b := [Ref(a)]];
      NothingVanishes(book) && !LoopEnds(book, [Ref(a)])
    ensures LoopEnds(map[a := [Ref(a)]], [Ref(a)])
  {
    var book := map[a := [Ref(b)], b := [Ref(a)]];
    LoopEndsExactlyWhenResolvable(book, [Ref(a)]);
    if d: nat :| Resolves(book, [Ref(a)], d) {
      CycleNeverResolves(book, a, b, d);
    }
    var self := map[a := [Ref(a)]];
    assert Resolves(self, [Ref(a)], 0);
    LoopEndsExactlyWhenResolvable(self, [Ref(a)]);
  }

  lemma {:induction false} CycleNeverResolves(book: Book, a: string, b: string, d: nat)
    requires a != b && a in book && b in book && book[a] == [Ref(b)] && book[b] == [Ref(a)]
    ensures !Resolves(book, [Ref(a)], d)
    decreases d
  {
    var tokens := [Ref(a)];
    assert [Ref(b)][0] != tokens[0];
    assert !Final(book, tokens[0]);
    if d > 0 {
      CycleNeverResolves(book, b, a, d - 1);
      assert Value(book, tokens[0].name) == [Ref(b)];
    }
  }

  /**
   A name that refers to itself beside one that is not set: the references never end, but the
   loop does, since in the end only the self reference is left.
  */
  lemma VanishingNeighbourEndsCycle(a: string, u: string)
    requires a != u && a != "" && u != "" && PlainName(a) && PlainName(u)
    ensures var book := map[a := [Ref(a), Ref(u)]];
      LoopEnds(book, [Ref(a)]) && !Resolvable(book, [Ref(a)])
  {
    var value := [Ref(a), Ref(u)];
    var book := map[a := value];
    assert value[0] == Ref(a);
    assert Dead(book, Value(book, u), 0);
    if d: nat :| Dead(book, value, d) {
      SelfReferenceStays(book, a, d);
    }
    assert value == [Ref(a)] + [Ref(u)] && [Ref(u)] == [Ref(u)] + [];
    LiveFirst(book, Ref(a), [Ref(u)]);
    LiveFirst(book, Ref(u), []);
    assert Lone(book, a);
    assert Rests(book, [Ref(a)], 0);
    LoopEndsExactlyWhenAtRest(book, [Ref(a)]);
    if d: nat :| Resolves(book, [Ref(a)], d) {
      SelfReferenceStays(book, a, d);
    }
  }

  lemma {:induction false} SelfReferenceStays(book: Book, a: string, d: nat)
    requires a in book && |book[a]| == 2 && book[a][0] == Ref(a)
    ensures !Dead(book, book[a], d)
    ensures !Resolves(book, [Ref(a)], d) && !Resolves(book, book[a], d)
    decreases d
  {
    assert [Ref(a)][0] == Ref(a) && !Final(book, Ref(a));
    if d > 0 {
      SelfReferenceStays(book, a, d - 1);
    }
  }
}
