/**
 ASSUMPTION. Go's `os.Expand`, which is not part of the modelled repository, on byte strings:
 `${name}` and `$name` are replaced, `${}` and an unclosed `${` are swallowed, a dollar sign
 before anything else stays.
*/
module ShellExpand {
  type Environment = map<string, string>

  function Getenv(env: Environment, key: string): string {
    if key in env then env[key] else ""
  }

  predicate Occurs(s: string, part: string, i: nat) {
    i + |part| <= |s| && s[i..i + |part|] == part
  }

  /** The first position at or after i where `part` occurs, or the length of s. */
  function Find(s: string, part: string, i: nat := 0): (k: nat)
    requires i <= |s| && part != ""
    ensures i <= k <= |s|
    ensures k < |s| ==> Occurs(s, part, k)
    ensures forall j: nat | i <= j < k :: !Occurs(s, part, j)
    decreases |s| - i
  {
    if i == |s| || Occurs(s, part, i) then i else Find(s, part, i + 1)
  }

  predicate IsShellSpecialVar(c: char) {
    c in "*#$@!?-0123456789"
  }

  predicate IsAlphaNum(c: char) {
    c == '_' || '0' <= c <= '9' || 'a' <= c <= 'z' || 'A' <= c <= 'Z'
  }

  function AlphaNumRun(s: string, i: nat := 0): (k: nat)
    requires i <= |s|
    ensures i <= k <= |s|
    decreases |s| - i
  {
    if i == |s| || !IsAlphaNum(s[i]) then i else AlphaNumRun(s, i + 1)
  }

  /** The name after a dollar sign and how many bytes it takes up. */
  function ShellName(s: string): (r: (string, nat))
    requires s != ""
    ensures r.1 <= |s|
  {
    if s[0] == '{' then
      if |s| > 2 && IsShellSpecialVar(s[1]) && s[2] == '}' then (s[1..2], 3)
      else
        var close := Find(s, "}", 1);
        if close == |s| then ("", 1)
        else if close == 1 then ("", 2)
        else (s[1..close], close + 1)
    else if IsShellSpecialVar(s[0]) then (s[..1], 1)
    else
      var end := AlphaNumRun(s);
      (s[..end], end)
  }

  /** What a name is replaced by; with `defaults`, `NAME:-text` falls back to text if NAME is empty. */
  function Lookup(env: Environment, key: string, defaults: bool): string {
    var i := Find(key, ":-");
    if defaults && i < |key| then
      var val := Getenv(env, key[..i]);
      if val != "" then val else key[i + 2..]
    else Getenv(env, key)
  }

  function Expand(s: string, env: Environment, defaults: bool): string {
    if s == "" then ""
    else if s[0] == '$' && |s| > 1 then
      var (name, width) := ShellName(s[1..]);
      (if name == "" && width > 0 then ""
       else if name == "" then "$"
       else Lookup(env, name, defaults))
      + Expand(s[1 + width..], env, defaults)
    else s[..1] + Expand(s[1..], env, defaults)
  }

  /** Text without a dollar sign is copied. */
  lemma {:induction false} ExpandText(text: string, rest: string, env: Environment, defaults: bool)
    requires '$' !in text
    ensures Expand(text + rest, env, defaults) == text + Expand(rest, env, defaults)
  {
    if text == "" {
      assert text + rest == rest;
    } else {
      ExpandText(text[1..], rest, env, defaults);
      assert (text + rest)[1..] == text[1..] + rest;
      assert text == text[..1] + text[1..];
    }
  }

  /** The name of a whole reference runs to its closing brace. */
  lemma ReferenceName(key: string, rest: string)
    requires key != "" && '}' !in key
    ensures ShellName("{" + key + "}" + rest) == (key, |key| + 2)
  {
    var tail := "{" + key + "}" + rest;
    var close := |key| + 1;
    assert Occurs(tail, "}", close);
    assert forall j | 1 <= j < close :: tail[j] == key[j - 1];
    var k := Find(tail, "}", 1);
    assert k < |tail| ==> tail[k..k + 1][0] == '}';
    assert k == close;
    assert tail[1..close] == key;
  }

  /** A whole reference is replaced by what its key stands for. */
  lemma ExpandReference(key: string, rest: string, env: Environment, defaults: bool)
    requires key != "" && '}' !in key
    ensures Expand("${" + key + "}" + rest, env, defaults) ==
            Lookup(env, key, defaults) + Expand(rest, env, defaults)
  {
    ReferenceName(key, rest);
    var s := "${" + key + "}" + rest;
    assert s[1..] == "{" + key + "}" + rest;
    assert s[1 + (|key| + 2)..] == rest;
  }

  /** `$NAME`, ended by the first character that is not a letter, a digit or an underscore. */
  lemma ExpandBareName(name: string, rest: string, env: Environment, defaults: bool)
    requires name != "" && !('0' <= name[0] <= '9')
    requires forall i | 0 <= i < |name| ::
      name[i] == '_' || '0' <= name[i] <= '9' || 'a' <= name[i] <= 'z' || 'A' <= name[i] <= 'Z'
    requires rest != "" ==>
      !(rest[0] == '_' || '0' <= rest[0] <= '9' || 'a' <= rest[0] <= 'z' || 'A' <= rest[0] <= 'Z')
    ensures Expand("$" + name + rest, env, defaults) == Lookup(env, name, defaults) + Expand(rest, env, defaults)
  {
    var s := "$" + name + rest;
    RunIsName(name, rest, 0);
    NotSpecial(name[0]);
    assert (name + rest)[..|name|] == name;
    assert ShellName(name + rest) == (name, |name|);
    assert s[1..] == name + rest && s[1 + |name|..] == rest;
  }

  lemma NotSpecial(c: char)
    requires c == '_' || 'a' <= c <= 'z' || 'A' <= c <= 'Z'
    ensures !IsShellSpecialVar(c)
  {
  }

  lemma {:induction false} RunIsName(name: string, rest: string, i: nat)
    requires i <= |name| && forall j | 0 <= j < |name| :: IsAlphaNum(name[j])
    requires rest == "" || !IsAlphaNum(rest[0])
    ensures AlphaNumRun(name + rest, i) == |name|
    decreases |name| - i
  {
    if i < |name| {
      RunIsName(name, rest, i + 1);
    }
  }

  /** `$` before one of the special characters takes that one character, with or without braces. */
  lemma ExpandSpecial(c: char, rest: string, env: Environment, defaults: bool)
    requires c in {'*', '#', '$', '@', '!', '?', '-'} || '0' <= c <= '9'
    ensures Expand("$" + [c] + rest, env, defaults) == Lookup(env, [c], defaults) + Expand(rest, env, defaults)
  {
    var s := "$" + [c] + rest;
    assert s[1..] == [c] + rest && s[0] == '$' && s[2..] == rest;
    assert ([c] + rest)[..1] == [c];
    assert "*#$@!?-0123456789" == "*#$@!?-" + "0123456789";
    DigitIsSpecial(c);
  }

  lemma DigitIsSpecial(c: char)
    requires c in {'*', '#', '$', '@', '!', '?', '-'} || '0' <= c <= '9'
    ensures IsShellSpecialVar(c)
  {
    var all := "*#$@!?-0123456789";
    assert c == all[0] || c == all[1] || c == all[2] || c == all[3] || c == all[4] || c == all[5] || c == all[6]
        || c == all[7] || c == all[8] || c == all[9] || c == all[10] || c == all[11] || c == all[12]
        || c == all[13] || c == all[14] || c == all[15] || c == all[16];
  }

  lemma NoBrace(s: string, i: nat)
    requires '}' !in s && i <= |s|
    ensures Find(s, "}", i) == |s|
  {
    forall j: nat | j < |s|
      ensures !Occurs(s, "}", j)
    {
      assert s[j..j + 1] == [s[j]];
    }
  }

  /** `${}` is swallowed. */
  lemma ExpandEmptyBraces(rest: string, env: Environment, defaults: bool)
    ensures Expand("${}" + rest, env, defaults) == Expand(rest, env, defaults)
  {
    var s := "${}" + rest;
    assert s[1..] == "{}" + rest && s[3..] == rest;
    assert Occurs("{}" + rest, "}", 1);
    assert ShellName("{}" + rest) == ("", 2);
  }

  /** So is a `${` that is never closed. */
  lemma ExpandUnclosed(rest: string, env: Environment, defaults: bool)
    requires '}' !in rest
    ensures Expand("${" + rest, env, defaults) == Expand(rest, env, defaults)
  {
    var s, tail := "${" + rest, "{" + rest;
    assert s[1..] == tail && s[2..] == rest;
    NoBrace(tail, 1);
    assert ShellName(tail) == ("", 1);
  }

  /** Any other lone dollar sign stays, at the end and before a character that starts no name. */
  lemma ExpandLoneDollar(rest: string, env: Environment, defaults: bool)
    requires rest != "" ==> rest[0] !in {'{', '*', '#', '$', '@', '!', '?', '-', '_'}
    requires rest != "" ==> !('0' <= rest[0] <= '9' || 'a' <= rest[0] <= 'z' || 'A' <= rest[0] <= 'Z')
    ensures Expand("$" + rest, env, defaults) == "$" + Expand(rest, env, defaults)
  {
    var s := "$" + rest;
    assert s[1..] == rest && s[..1] == "$";
    if rest != "" {
      assert ShellName(rest).1 == 0;
    }
  }
}
