/** One setting under several names: the flag, two environment variables, and lines of the file. */
module Knobs {
  import opened Text
  import opened EnvFile

  /** The environment name of a flag. */
  function BareName(flag: string): string { ToUpper(Underscored(flag)) }

  function EnvNames(flag: string, extra: seq<string>): seq<string> {
    [BareName(flag), "RSR_" + BareName(flag)] + extra
  }

  function FileValue(file: map<string, string>, k: string): string { if k in file then file[k] else "" }

  /** The environment backed by the file: a blank environment variable does not count, a file value does unless
      it is empty. */
  function LayerGetenv(env: string -> string, file: map<string, string>, k: string): string {
    var bare := TrimPrefix(k, "RSR_");
    if TrimSpace(env(k)) != "" then TrimSpace(env(k))
    else if FileValue(file, k) != "" then FileValue(file, k)
    else if FileValue(file, bare) != "" then FileValue(file, bare)
    else FileValue(file, "RSR_" + bare)
  }

  /** The first text that is more than blanks, trimmed; else the default. */
  function FirstNonBlank(texts: seq<string>, default: string): string {
    if texts == [] then default
    else if TrimSpace(texts[0]) != "" then TrimSpace(texts[0])
    else FirstNonBlank(texts[1..], default)
  }

  function Looked(getenv: string -> string, keys: seq<string>): seq<string> {
    seq(|keys|, i requires 0 <= i < |keys| => getenv(keys[i]))
  }

  lemma {:induction false} FirstNonBlankSkips(texts: seq<string>, i: nat, default: string)
    requires i <= |texts| && forall j | 0 <= j < i :: TrimSpace(texts[j]) == ""
    ensures FirstNonBlank(texts, default) == FirstNonBlank(texts[i..], default)
  {
    if i > 0 {
      FirstNonBlankSkips(texts[1..], i - 1, default);
      assert texts[1..][i - 1..] == texts[i..];
    } else {
      assert texts[0..] == texts;
    }
  }

  /** The i-th text is the first that is more than blanks. */
  predicate FirstSaid(texts: seq<string>, i: nat) {
    i < |texts| && TrimSpace(texts[i]) != "" && forall j | 0 <= j < i :: TrimSpace(texts[j]) == ""
  }

  /** It is the first text that is more than blanks, trimmed, and the default where all are blank. */
  lemma FirstNonBlankIs(texts: seq<string>, default: string)
    ensures (forall t | t in texts :: TrimSpace(t) == "") ==> FirstNonBlank(texts, default) == default
    ensures forall i: nat | FirstSaid(texts, i) :: FirstNonBlank(texts, default) == TrimSpace(texts[i])
  {
    if forall t | t in texts :: TrimSpace(t) == "" {
      FirstNonBlankSkips(texts, |texts|, default);
    }
    forall i: nat | FirstSaid(texts, i) ensures FirstNonBlank(texts, default) == TrimSpace(texts[i]) {
      FirstNonBlankSkips(texts, i, default);
    }
  }

  method FirstEnv(getenv: string -> string, keys: seq<string>) returns (v: string)
    ensures v == FirstNonBlank(Looked(getenv, keys), "")
  {
    for i := 0 to |keys|
      invariant forall j | 0 <= j < i :: TrimSpace(getenv(keys[j])) == ""
    {
      FirstNonBlankSkips(Looked(getenv, keys), i, "");
      v := TrimSpace(getenv(keys[i]));
      if v != "" { return; }
    }
    FirstNonBlankSkips(Looked(getenv, keys), |keys|, "");
    v := "";
  }

  method EnvOr(getenv: string -> string, default: string, keys: seq<string>) returns (v: string)
    ensures v == FirstNonBlank(Looked(getenv, keys), default)
  {
    v := FirstEnv(getenv, keys);
    DefaultOnlyLast(Looked(getenv, keys), default);
    if v == "" { v := default; }
  }

  lemma {:induction false} DefaultOnlyLast(texts: seq<string>, default: string)
    ensures var v := FirstNonBlank(texts, "");
            FirstNonBlank(texts, default) == if v == "" then default else v
  {
    if texts != [] { DefaultOnlyLast(texts[1..], default); }
  }

  lemma {:induction false} FirstNonBlankJoins(xs: seq<string>, ys: seq<string>, default: string)
    ensures FirstNonBlank(xs + ys, default) == FirstNonBlank(xs, FirstNonBlank(ys, default))
  {
    if xs == [] {
      assert xs + ys == ys;
    } else {
      FirstNonBlankJoins(xs[1..], ys, default);
      assert (xs + ys)[1..] == xs[1..] + ys;
    }
  }

  /** Further names of a setting are asked after its bare and its prefixed one, in their order. */
  lemma ExtraNamesLast(getenv: string -> string, flag: string, extra: seq<string>, default: string)
    ensures var names := [BareName(flag), "RSR_" + BareName(flag)];
            FirstNonBlank(Looked(getenv, EnvNames(flag, extra)), default)
            == FirstNonBlank(Looked(getenv, names), FirstNonBlank(Looked(getenv, extra), default))
  {
    var names := [BareName(flag), "RSR_" + BareName(flag)];
    assert Looked(getenv, EnvNames(flag, extra)) == Looked(getenv, names) + Looked(getenv, extra);
    FirstNonBlankJoins(Looked(getenv, names), Looked(getenv, extra), default);
  }

  /** What a string setting comes out as. */
  function Setting(env: string -> string, file: map<string, string>, default: string, flag: string): string {
    FirstNonBlank(Looked(k => LayerGetenv(env, file, k), EnvNames(flag, [])), default)
  }

  /** What the file says of a setting when it is asked under the bare name, and under the prefixed one: the two differ
      only where the file has both keys, which takes a key written with the prefix twice. */
  function FileFirst(file: map<string, string>, bare: string): string {
    if FileValue(file, bare) != "" then FileValue(file, bare) else FileValue(file, "RSR_" + bare)
  }

  function FileLast(file: map<string, string>, bare: string): string {
    if FileValue(file, "RSR_" + bare) != "" then FileValue(file, "RSR_" + bare) else FileValue(file, bare)
  }

  /** A setting is the first that is more than blanks of: the bare environment variable, the file, the prefixed
      environment variable, the file asked once more, the default. */
  lemma SettingOrder(env: string -> string, file: map<string, string>, default: string, flag: string)
    requires !("RSR_" <= BareName(flag))
    ensures var bare := BareName(flag);
            Setting(env, file, default, flag)
              == FirstNonBlank([env(bare), FileFirst(file, bare), env("RSR_" + bare), FileLast(file, bare)], default)
  {
    var bare := BareName(flag);
    var prefixed := "RSR_" + bare;
    LookedUp(env, file, bare);
    var get := k => LayerGetenv(env, file, k);
    var texts := Looked(get, EnvNames(flag, []));
    assert texts == [get(bare), get(prefixed)];
    TrimSpaceIdempotent(env(bare));
    TrimSpaceIdempotent(env(prefixed));
    UnfoldTwo(texts[0], texts[1], default);
    UnfoldFour(env(bare), FileFirst(file, bare), env(prefixed), FileLast(file, bare), default);
  }

  lemma LookedUp(env: string -> string, file: map<string, string>, bare: string)
    requires !("RSR_" <= bare)
    ensures LayerGetenv(env, file, bare)
         == if TrimSpace(env(bare)) != "" then TrimSpace(env(bare)) else FileFirst(file, bare)
    ensures LayerGetenv(env, file, "RSR_" + bare)
         == if TrimSpace(env("RSR_" + bare)) != "" then TrimSpace(env("RSR_" + bare)) else FileLast(file, bare)
  {
    assert TrimPrefix(bare, "RSR_") == bare;
    assert "RSR_" <= "RSR_" + bare && ("RSR_" + bare)[4..] == bare;
  }

  /** No key was written with the prefix twice: what loading leaves of such a key still has the prefix. */
  ghost predicate NoPrefixed(file: map<string, string>) { forall k | k in file :: !("RSR_" <= k) }

  /** Then the file has its one place between the two variables. */
  lemma PlainFileOrder(env: string -> string, file: map<string, string>, default: string, flag: string)
    requires !("RSR_" <= BareName(flag)) && NoPrefixed(file)
    ensures Setting(env, file, default, flag)
         == FirstNonBlank([env(BareName(flag)), FileValue(file, BareName(flag)), env("RSR_" + BareName(flag))], default)
  {
    var bare := BareName(flag);
    SettingOrder(env, file, default, flag);
    assert "RSR_" + bare !in file;
    UnfoldFour(env(bare), FileFirst(file, bare), env("RSR_" + bare), FileLast(file, bare), default);
    UnfoldThree(env(bare), FileValue(file, bare), env("RSR_" + bare), default);
  }

  lemma UnfoldTwo(a: string, b: string, default: string)
    ensures FirstNonBlank([a, b], default)
         == if TrimSpace(a) != "" then TrimSpace(a) else if TrimSpace(b) != "" then TrimSpace(b) else default
  {
    assert [a, b][1..] == [b] && [b][1..] == [];
    assert FirstNonBlank([b], default) == if TrimSpace(b) != "" then TrimSpace(b) else default;
  }

  lemma UnfoldThree(a: string, b: string, c: string, default: string)
    ensures FirstNonBlank([a, b, c], default)
         == if TrimSpace(a) != "" then TrimSpace(a) else FirstNonBlank([b, c], default)
    ensures FirstNonBlank([b, c], default)
         == if TrimSpace(b) != "" then TrimSpace(b) else if TrimSpace(c) != "" then TrimSpace(c) else default
  {
    assert [a, b, c][1..] == [b, c];
    UnfoldTwo(b, c, default);
  }

  lemma UnfoldFour(a: string, b: string, c: string, d: string, default: string)
    ensures FirstNonBlank([a, b, c, d], default)
         == if TrimSpace(a) != "" then TrimSpace(a) else FirstNonBlank([b, c, d], default)
    ensures FirstNonBlank([b, c, d], default)
         == if TrimSpace(b) != "" then TrimSpace(b) else FirstNonBlank([c, d], default)
    ensures FirstNonBlank([c, d], default)
         == if TrimSpace(c) != "" then TrimSpace(c) else if TrimSpace(d) != "" then TrimSpace(d) else default
  {
    assert [a, b, c, d][1..] == [b, c, d];
    UnfoldThree(b, c, d, default);
    UnfoldTwo(c, d, default);
  }

  /** What the file alone makes of a setting. */
  function FileText(file: map<string, string>, bare: string): string {
    if TrimSpace(FileFirst(file, bare)) != "" then FileFirst(file, bare) else FileLast(file, bare)
  }

  /** The order the documentation gives, in which the process environment comes before the file under either name,
      is the order of the code exactly when the file and the prefixed variable do not compete: the bare variable is
      set, or one of the two is blank, or they agree. */
  lemma DocumentedOrderIff(env: string -> string, file: map<string, string>, default: string, flag: string)
    requires !("RSR_" <= BareName(flag))
    ensures var bare := BareName(flag);
            var e, f, g := TrimSpace(env(bare)), TrimSpace(FileFirst(file, bare)), TrimSpace(env("RSR_" + bare));
            Setting(env, file, default, flag)
            == FirstNonBlank([env(bare), env("RSR_" + bare), FileText(file, bare)], default)
            <==> e != "" || f == "" || g == "" || f == g
  {
    var bare := BareName(flag);
    SettingOrder(env, file, default, flag);
    UnfoldFour(env(bare), FileFirst(file, bare), env("RSR_" + bare), FileLast(file, bare), default);
    UnfoldThree(env(bare), env("RSR_" + bare), FileText(file, bare), default);
  }

  /** Where they compete the file wins, for any flag. */
  lemma FileBeatsPrefixedVariable(default: string, flag: string)
    requires !("RSR_" <= BareName(flag))
    ensures var bare := BareName(flag);
            var env := k => if k == "RSR_" + bare then "env" else "";
            && Setting(env, map[bare := "file"], default, flag) == "file"
            && FirstNonBlank([env(bare), env("RSR_" + bare), FileValue(map[bare := "file"], bare)], default) == "env"
  {
    var bare := BareName(flag);
    var env := k => if k == "RSR_" + bare then "env" else "";
    var file := map[bare := "file"];
    assert bare != "RSR_" + bare by { assert |"RSR_" + bare| == |bare| + 4; }
    PlainFileOrder(env, file, default, flag);
    UnfoldThree(env(bare), FileValue(file, bare), env("RSR_" + bare), default);
    UnfoldThree(env(bare), env("RSR_" + bare), FileValue(file, bare), default);
    assert Trimmed("env") && Trimmed("file");
  }

  // ----- spellings -----

  predicate FlagName(flag: string) {
    && flag != "" && IsLower(flag[0])
    && (forall c | c in flag :: IsLower(c) || IsDigit(c) || c == '-')
    && !("RSR_" <= BareName(flag))
  }

  lemma BareNameChars(flag: string)
    requires FlagName(flag)
    ensures var bare := BareName(flag);
            && bare != "" && IsUpper(bare[0])
            && (forall c | c in bare :: IsUpper(c) || IsDigit(c) || c == '_')
  {
    var bare := BareName(flag);
    assert bare[0] == UpperChar(Underscored(flag)[0]) && Underscored(flag)[0] == flag[0];
    forall i | 0 <= i < |bare| ensures IsUpper(bare[i]) || IsDigit(bare[i]) || bare[i] == '_' {
      assert flag[i] in flag && bare[i] == UpperChar(Underscored(flag)[i]);
    }
  }

  lemma UpperFixed(s: string)
    requires forall c | c in s :: IsUpper(c) || IsDigit(c) || c == '_'
    ensures ToUpper(Underscored(s)) == s
  {
    forall i | 0 <= i < |s| ensures ToUpper(Underscored(s))[i] == s[i] { assert s[i] in s; }
  }

  lemma KeyIsTrimmed(s: string)
    requires s != "" && forall c | c in s :: KeyChar(c)
    ensures TrimSpace(s) == s
  {
    assert KeyChar(s[0]) && KeyChar(s[|s| - 1]);
  }

  lemma BareSpelling(bare: string)
    requires bare != "" && (forall c | c in bare :: IsUpper(c) || IsDigit(c) || c == '_') && !("RSR_" <= bare)
    ensures CanonicalFileKey(bare) == bare && forall c | c in bare :: KeyChar(c)
  {
    assert forall c | c in bare :: KeyChar(c);
    KeyIsTrimmed(bare);
    assert bare[0] in bare;
    assert TrimPrefix(bare, "--") == bare;
    UpperFixed(bare);
  }

  lemma PrefixedSpelling(bare: string)
    requires forall c | c in bare :: IsUpper(c) || IsDigit(c) || c == '_'
    ensures CanonicalFileKey("RSR_" + bare) == bare && forall c | c in "RSR_" + bare :: KeyChar(c)
  {
    var prefixed := "RSR_" + bare;
    assert forall c | c in prefixed :: IsUpper(c) || IsDigit(c) || c == '_';
    assert forall c | c in prefixed :: KeyChar(c);
    KeyIsTrimmed(prefixed);
    assert TrimPrefix(prefixed, "--") == prefixed;
    UpperFixed(prefixed);
    assert "RSR_" <= prefixed && prefixed[4..] == bare;
  }

  lemma FlagSpelling(flag: string)
    requires FlagName(flag)
    ensures CanonicalFileKey(flag) == BareName(flag) && forall c | c in flag :: KeyChar(c)
  {
    assert forall c | c in flag :: KeyChar(c);
    KeyIsTrimmed(flag);
    assert flag[0] != '-';
    assert TrimPrefix(flag, "--") == flag;
  }

  lemma DashedSpelling(flag: string)
    requires FlagName(flag)
    ensures CanonicalFileKey("--" + flag) == BareName(flag) && forall c | c in "--" + flag :: KeyChar(c)
  {
    var dashed := "--" + flag;
    assert forall c | c in dashed :: KeyChar(c);
    KeyIsTrimmed(dashed);
    assert "--" <= dashed && dashed[2..] == flag;
  }

  /** A way to write a flag's key in the file. */
  predicate Spells(sp: string, flag: string) { Spelling(sp) && CanonicalFileKey(sp) == EnvNames(flag, [])[0] }

  lemma SpellsBare(sp: string, flag: string)
    requires FlagName(flag) && sp != "" && (forall c | c in sp :: KeyChar(c)) && CanonicalFileKey(sp) == BareName(flag)
    ensures Spells(sp, flag)
  {
    BareNameChars(flag);
    assert ValidEnvKey(BareName(flag));
  }

  /** The four ways to write a flag's key in the file have one canonical form, which is the flag's first
      environment name. */
  lemma SpellingsMeet(flag: string)
    requires FlagName(flag)
    ensures Spells("--" + flag, flag) && Spells(flag, flag)
    ensures Spells("RSR_" + BareName(flag), flag) && Spells(BareName(flag), flag)
  {
    BareNameChars(flag);
    BareSpelling(BareName(flag));
    PrefixedSpelling(BareName(flag));
    FlagSpelling(flag);
    DashedSpelling(flag);
    SpellsBare("--" + flag, flag);
    SpellsBare(flag, flag);
    SpellsBare("RSR_" + BareName(flag), flag);
    SpellsBare(BareName(flag), flag);
  }

  /** However the key of a line is spelled, the line does the same. */
  lemma OneKnob(flag: string, rest: string)
    requires FlagName(flag)
    ensures LineEffect("--" + flag + "=" + rest) == LineEffect(BareName(flag) + "=" + rest)
    ensures LineEffect(flag + "=" + rest) == LineEffect(BareName(flag) + "=" + rest)
    ensures LineEffect("RSR_" + BareName(flag) + "=" + rest) == LineEffect(BareName(flag) + "=" + rest)
  {
    SpellingsMeet(flag);
    AssignmentEffect(BareName(flag), rest);
    AssignmentEffect("--" + flag, rest);
    AssignmentEffect(flag, rest);
    AssignmentEffect("RSR_" + BareName(flag), rest);
  }
}
