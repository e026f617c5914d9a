/**
 * The credential-file helpers: the `.<group>.<env>.env` naming rule, the
 * KEY=VALUE line rules, the token probe of a login response, and the order
 * in which environments are listed.
 */
module Fetcher {
  import opened Wrappers
  import opened Text
  import opened Json

  // ------------------------------------------------------ file names

  /** `name[1:-4]`: the name without its leading dot and `.env` suffix (empty when they overlap). */
  function Inner(name: string): string
  {
    if |name| >= 5 then name[1..|name| - 4] else ""
  }

  /** `_parse_env_filename`: `(env_name, group)`, split at the last dot of the inner part. */
  function ParseEnvFilename(name: string): Option<(string, string)>
  {
    if !(StartsWith(name, ".") && EndsWith(name, ".env")) then None
    else
      var inner := Inner(name);
      match LastIndexOf(inner, '.')
      case None => None
      case Some(dot) => Some((inner[dot + 1..], inner[..dot]))
  }

  /** A name is rejected exactly when it lacks the leading dot, the suffix, or a dot between them. */
  lemma ParseEnvFilenameRejects(name: string)
    ensures ParseEnvFilename(name).None? <==>
              !StartsWith(name, ".") || !EndsWith(name, ".env") || '.' !in Inner(name)
  {
  }

  /**
   * An accepted name is `"." + group + "." + env + ".env"`, the environment
   * being the text after the last dot, so it has no dot of its own.
   */
  lemma ParseEnvFilenameParts(name: string, env: string, group: string)
    requires ParseEnvFilename(name) == Some((env, group))
    ensures group + "." + env == Inner(name)
    ensures '.' !in env
    ensures name == "." + group + "." + env + ".env"
  {
    var inner := Inner(name);
    var dot := LastIndexOf(inner, '.').value;
    assert env == inner[dot + 1..] && group == inner[..dot];
    SplitAtDot(inner, dot);
    assert |name| >= 5;
    NameAroundInner(name);
    ConcatAssoc(group, env);
  }

  lemma ConcatAssoc(group: string, env: string)
    ensures "." + (group + "." + env) + ".env" == "." + group + "." + env + ".env"
  {
  }

  lemma SplitAtDot(inner: string, dot: nat)
    requires dot < |inner| && inner[dot] == '.'
    ensures inner == inner[..dot] + "." + inner[dot + 1..]
  {
  }

  lemma NameAroundInner(name: string)
    requires |name| >= 5 && StartsWith(name, ".") && EndsWith(name, ".env")
    ensures name == "." + Inner(name) + ".env"
  {
    assert name == name[..1] + name[1..|name| - 4] + name[|name| - 4..];
  }

  /** Every group and every dot-free environment name round-trip through the file name. */
  lemma ParseEnvFilenameRoundTrip(group: string, env: string)
    requires '.' !in env
    ensures ParseEnvFilename("." + group + "." + env + ".env") == Some((env, group))
  {
    var name := "." + group + "." + env + ".env";
    var inner := group + "." + env;
    assert name[..1] == ".";
    assert name[|name| - 4..] == ".env";
    assert Inner(name) == inner;
    assert inner[|group|] == '.';
    assert inner[|group| + 1..] == env;
    LastIndexOfAt(inner, '.', |group|);
    assert inner[..|group|] == group;
  }

  lemma NotInSuffix(s: string, c: char, x: nat)
    requires x <= |s| && c !in s[x..]
    ensures forall m :: x <= m < |s| ==> s[m] != c
  {
    forall m | x <= m < |s| ensures s[m] != c { assert s[m] == s[x..][m - x]; }
  }

  /** An occurrence with none after it is the last. */
  lemma LastIndexOfAt(s: string, c: char, k: nat)
    requires k < |s| && s[k] == c && c !in s[k + 1..]
    ensures LastIndexOf(s, c) == Some(k)
  {
    var r := LastIndexOf(s, c).value;
    NotInSuffix(s, c, r + 1);
    NotInSuffix(s, c, k + 1);
  }

  /** `.quarticle.dev.env` names the environment `dev` of the group `quarticle`. */
  lemma ParseEnvFilenameExample()
    ensures ParseEnvFilename(".quarticle.dev.env") == Some(("dev", "quarticle"))
  {
    assert ".quarticle.dev.env" == "." + "quarticle" + "." + "dev" + ".env";
    assert "dev" == ['d', 'e', 'v'];
    ParseEnvFilenameRoundTrip("quarticle", "dev");
  }

  /** Two accepted names with the same (env, group) are the same name. */
  lemma ParseEnvFilenameInjective(a: string, b: string)
    requires ParseEnvFilename(a).Some? && ParseEnvFilename(a) == ParseEnvFilename(b)
    ensures a == b
  {
    var (env, group) := ParseEnvFilename(a).value;
    ParseEnvFilenameParts(a, env, group);
    ParseEnvFilenameParts(b, env, group);
  }

  // ------------------------------------------------------- env files

  /** `line.partition("=")` with both halves stripped; no "=" gives an empty value. */
  function SplitAssignment(t: string): (string, string)
  {
    match IndexOf(t, '=')
    case None => (Strip(t), "")
    case Some(i) => (Strip(t[..i]), Strip(t[i + 1..]))
  }

  /** What one line contributes: nothing for a blank or `#` line, else its key and value. */
  function Entry(line: string): Option<(string, string)>
  {
    var t := Strip(line);
    if t == "" || StartsWith(t, "#") then None else Some(SplitAssignment(t))
  }

  /** The dictionary after reading `lines` in order: a later line for a key overrides an earlier one. */
  function EnvOf(lines: seq<string>): map<string, string>
  {
    if lines == [] then map[]
    else
      var env := EnvOf(lines[..|lines| - 1]);
      match Entry(lines[|lines| - 1])
      case None => env
      case Some(kv) => env[kv.0 := kv.1]
  }

  predicate Defines(line: string, key: string)
  {
    Entry(line).Some? && Entry(line).value.0 == key
  }

  /** `parse_env_file` over the file's lines. */
  method ParseEnvFile(lines: seq<string>) returns (env: map<string, string>)
    ensures env == EnvOf(lines)
  {
    env := map[];
    var i := 0;
    while i < |lines|
      invariant 0 <= i <= |lines|
      invariant env == EnvOf(lines[..i])
    {
      assert lines[..i + 1][..i] == lines[..i];
      var line := Strip(lines[i]);
      if line == "" || StartsWith(line, "#") {
        i := i + 1;
        continue;
      }
      var (key, value) := SplitAssignment(line);
      env := env[key := value];
      i := i + 1;
    }
    assert lines[..|lines|] == lines;
  }

  /** The keys are exactly those some line defines. */
  lemma EnvOfKeys(lines: seq<string>, key: string)
    ensures key in EnvOf(lines) <==> exists i :: 0 <= i < |lines| && Defines(lines[i], key)
  {
    EnvOfDefinedIn(lines, key);
  }

  lemma {:induction false} EnvOfDefinedIn(lines: seq<string>, key: string)
    ensures key in EnvOf(lines) <==> DefinedIn(lines, key)
  {
    if lines != [] {
      EnvOfDefinedIn(lines[..|lines| - 1], key);
      EnvOfStep(lines, key);
      DefinedSnoc(lines, key);
    }
  }

  lemma EnvOfStep(lines: seq<string>, key: string)
    requires lines != []
    ensures key in EnvOf(lines) <==> key in EnvOf(lines[..|lines| - 1]) || Defines(lines[|lines| - 1], key)
  {
  }

  /** Some line of `lines` defines `key`. */
  ghost predicate DefinedIn(lines: seq<string>, key: string)
  {
    exists i :: 0 <= i < |lines| && Defines(lines[i], key)
  }

  lemma DefinedSnoc(lines: seq<string>, key: string)
    requires lines != []
    ensures DefinedIn(lines, key) <==> DefinedIn(lines[..|lines| - 1], key) || Defines(lines[|lines| - 1], key)
  {
    var init, last := lines[..|lines| - 1], lines[|lines| - 1];
    assert lines == init + [last];
    DefinedAppend(init, last, key);
  }

  lemma DefinedAppend(init: seq<string>, last: string, key: string)
    ensures DefinedIn(init + [last], key) <==> DefinedIn(init, key) || Defines(last, key)
  {
    var lines := init + [last];
    if DefinedIn(init, key) {
      var i :| 0 <= i < |init| && Defines(init[i], key);
      assert lines[i] == init[i];
    }
    if Defines(last, key) {
      assert lines[|init|] == last;
    }
    if DefinedIn(lines, key) {
      var i :| 0 <= i < |lines| && Defines(lines[i], key);
      if i < |init| { assert init[i] == lines[i]; }
    }
  }

  /** A key's value comes from the last line that defines it. */
  lemma {:induction false} EnvOfLastWins(lines: seq<string>, i: nat, key: string, value: string)
    requires i < |lines| && Entry(lines[i]) == Some((key, value))
    requires forall j :: i < j < |lines| ==> !Defines(lines[j], key)
    ensures key in EnvOf(lines) && EnvOf(lines)[key] == value
  {
    var init := lines[..|lines| - 1];
    if i < |lines| - 1 {
      assert forall j :: i < j < |init| ==> init[j] == lines[j];
      EnvOfLastWins(init, i, key, value);
    }
  }

  /** Blank lines and comment lines define nothing. */
  lemma SkippedLines(line: string)
    ensures Entry(line).None? <==> Strip(line) == "" || Strip(line)[0] == '#'
  {
    var t := Strip(line);
    assert t != [] ==> (StartsWith(t, "#") <==> t[..1] == ['#']);
  }

  /**
   * A line splits at its first "=": the key never contains "=", and a line
   * without "=" defines its whole stripped text with an empty value.
   */
  lemma AssignmentSplit(line: string)
    requires Entry(line).Some?
    ensures '=' !in Entry(line).value.0
    ensures '=' !in Strip(line) ==> Entry(line).value == (Strip(line), "")
  {
    var t := Strip(line);
    match IndexOf(t, '=')
    case None =>
      StripIsSlice(t);
      StripIdempotent(line);
    case Some(i) =>
      StripIsSlice(t[..i]);
  }

  lemma StripIsSlice(s: string)
    ensures forall c :: c in Strip(s) ==> c in s
  {
    var a, b :| 0 <= a <= b <= |s| && Strip(s) == s[a..b];
    SliceMembers(s, a, b);
  }

  lemma SliceMembers(s: string, a: nat, b: nat)
    requires a <= b <= |s|
    ensures forall c :: c in s[a..b] ==> c in s
  {
    forall c | c in s[a..b] ensures c in s {
      var k :| 0 <= k < b - a && s[a..b][k] == c;
      assert s[a + k] == c;
    }
  }

  // ---------------------------------------------------------- tokens

  const TokenCandidates: seq<string> := ["token", "access_token", "accessToken", "jwt", "id_token", "idToken"]

  /** The field holds a non-empty string. */
  predicate HoldsToken(body: seq<Member>, field: string)
  {
    Get(body, field).Some? && Get(body, field).value.JStr? && Get(body, field).value.s != ""
  }

  /** `_extract_token`: the first candidate field, in priority order, holding a non-empty string. */
  method ExtractToken(body: seq<Member>) returns (tok: Option<string>)
    ensures tok.Some? ==> tok.value != ""
    ensures tok.Some? ==>
              exists i :: 0 <= i < |TokenCandidates| && Get(body, TokenCandidates[i]) == Some(JStr(tok.value)) &&
                          forall j :: 0 <= j < i ==> !HoldsToken(body, TokenCandidates[j])
    ensures tok.None? <==> forall i :: 0 <= i < |TokenCandidates| ==> !HoldsToken(body, TokenCandidates[i])
  {
    var i := 0;
    while i < |TokenCandidates|
      invariant 0 <= i <= |TokenCandidates|
      invariant forall j :: 0 <= j < i ==> !HoldsToken(body, TokenCandidates[j])
    {
      var value := Get(body, TokenCandidates[i]);
      if value.Some? && value.value.JStr? && value.value.s != "" {
        return Some(value.value.s);
      }
      i := i + 1;
    }
    return None;
  }

  // -------------------------------------------------- listing order

  type EnvEntry = (string, string)   // (group, env_name)

  /** Python's tuple order on (group, env_name). */
  predicate EntryLess(a: EnvEntry, b: EnvEntry)
  {
    Less(a.0, b.0) || (a.0 == b.0 && Less(a.1, b.1))
  }

  predicate EntryLessEq(a: EnvEntry, b: EnvEntry)
  {
    a == b || EntryLess(a, b)
  }

  predicate Sorted(xs: seq<EnvEntry>)
  {
    forall i, j :: 0 <= i < j < |xs| ==> EntryLessEq(xs[i], xs[j])
  }

  lemma EntryOrder(a: EnvEntry, b: EnvEntry, c: EnvEntry)
    ensures EntryLessEq(a, b) && EntryLessEq(b, c) ==> EntryLessEq(a, c)
    ensures EntryLessEq(a, b) || EntryLessEq(b, a)
  {
    if EntryLess(a, b) && EntryLess(b, c) {
      if Less(a.0, b.0) && Less(b.0, c.0) { LessTransitive(a.0, b.0, c.0); }
      if a.0 == b.0 && Less(a.1, b.1) && b.0 == c.0 && Less(b.1, c.1) { LessTransitive(a.1, b.1, c.1); }
    }
    if a != b {
      if a.0 != b.0 { LessTotal(a.0, b.0); } else { LessTotal(a.1, b.1); }
    }
  }

  /** The entries of the accepted names, in the order given. */
  function Accepted(names: seq<string>): seq<EnvEntry>
  {
    if names == [] then []
    else
      var rest := Accepted(names[..|names| - 1]);
      match ParseEnvFilename(names[|names| - 1])
      case None => rest
      case Some(p) => rest + [(p.1, p.0)]
  }

  /** Insert `x` in front of the first entry greater than it. */
  method InsertSorted(ys: seq<EnvEntry>, x: EnvEntry) returns (zs: seq<EnvEntry>)
    requires Sorted(ys)
    ensures Sorted(zs) && multiset(zs) == multiset(ys) + multiset{x}
  {
    var k := 0;
    while k < |ys| && EntryLessEq(ys[k], x)
      invariant 0 <= k <= |ys|
      invariant forall j :: 0 <= j < k ==> EntryLessEq(ys[j], x)
    {
      k := k + 1;
    }
    zs := ys[..k] + [x] + ys[k..];
    assert ys == ys[..k] + ys[k..];
    InsertKeepsSorted(ys, x, k);
  }

  lemma InsertKeepsSorted(ys: seq<EnvEntry>, x: EnvEntry, k: nat)
    requires Sorted(ys) && k <= |ys|
    requires forall j :: 0 <= j < k ==> EntryLessEq(ys[j], x)
    requires k < |ys| ==> !EntryLessEq(ys[k], x)
    ensures Sorted(ys[..k] + [x] + ys[k..])
  {
    forall j | k <= j < |ys| ensures EntryLessEq(x, ys[j]) {
      EntryOrder(ys[k], x, ys[k]);
      EntryOrder(x, ys[k], ys[j]);
    }
    var zs := ys[..k] + [x] + ys[k..];
    forall i, j | 0 <= i < j < |zs| ensures EntryLessEq(zs[i], zs[j]) {
      if i < k && j < k {
        assert zs[i] == ys[i] && zs[j] == ys[j];
      } else if i < k && j == k {
        assert zs[i] == ys[i];
      } else if i < k {
        assert zs[i] == ys[i] && zs[j] == ys[j - 1];
      } else if i == k {
        assert zs[j] == ys[j - 1];
      } else {
        assert zs[i] == ys[i - 1] && zs[j] == ys[j - 1];
      }
    }
  }

  /** `scan_envs` over the names found: keep the accepted ones, then sort by (group, env_name). */
  method ScanEnvs(names: seq<string>) returns (entries: seq<EnvEntry>)
    ensures Sorted(entries)
    ensures multiset(entries) == multiset(Accepted(names))
  {
    var found: seq<EnvEntry> := [];
    var i := 0;
    while i < |names|
      invariant 0 <= i <= |names|
      invariant found == Accepted(names[..i])
    {
      assert names[..i + 1][..i] == names[..i];
      var parsed := ParseEnvFilename(names[i]);
      if parsed.Some? {
        var (env, group) := parsed.value;
        found := found + [(group, env)];
      }
      i := i + 1;
    }
    assert names[..|names|] == names;
    entries := [];
    i := 0;
    while i < |found|
      invariant 0 <= i <= |found|
      invariant Sorted(entries) && multiset(entries) == multiset(found[..i])
    {
      assert found[..i + 1] == found[..i] + [found[i]];
      entries := InsertSorted(entries, found[i]);
      i := i + 1;
    }
    assert found[..|found|] == found;
  }

  predicate Distinct<T(==)>(xs: seq<T>)
  {
    forall i, j :: 0 <= i < j < |xs| ==> xs[i] != xs[j]
  }

  /** Every accepted entry comes from one of the names. */
  lemma {:induction false} AcceptedFrom(names: seq<string>)
    ensures forall e :: e in Accepted(names) ==> exists i :: 0 <= i < |names| && ParseEnvFilename(names[i]) == Some((e.1, e.0))
  {
    if names != [] {
      var init, last := names[..|names| - 1], names[|names| - 1];
      AcceptedFrom(init);
      forall e | e in Accepted(names) ensures exists i :: 0 <= i < |names| && ParseEnvFilename(names[i]) == Some((e.1, e.0)) {
        if e in Accepted(init) {
          var i :| 0 <= i < |init| && ParseEnvFilename(init[i]) == Some((e.1, e.0));
          assert names[i] == init[i];
        } else {
          assert ParseEnvFilename(names[|names| - 1]) == Some((e.1, e.0));
        }
      }
    }
  }

  /** Distinct names give distinct entries. */
  lemma {:induction false} AcceptedDistinct(names: seq<string>)
    requires Distinct(names)
    ensures Distinct(Accepted(names))
  {
    if names != [] {
      var init, last := names[..|names| - 1], names[|names| - 1];
      assert Distinct(init) by {
        forall i, j | 0 <= i < j < |init| ensures init[i] != init[j] { assert init[i] == names[i] && init[j] == names[j]; }
      }
      AcceptedDistinct(init);
      AcceptedFrom(init);
      var a := Accepted(init);
      if ParseEnvFilename(last).Some? {
        var (env, group) := ParseEnvFilename(last).value;
        forall k | 0 <= k < |a| ensures a[k] != (group, env) {
          assert a[k] in a;
          var i :| 0 <= i < |init| && ParseEnvFilename(init[i]) == Some((a[k].1, a[k].0));
          if a[k] == (group, env) {
            ParseEnvFilenameInjective(init[i], last);
            assert false;
          }
        }
      }
    }
  }

  lemma {:induction false} DistinctCount(xs: seq<EnvEntry>, e: EnvEntry)
    requires Distinct(xs)
    ensures multiset(xs)[e] <= 1
  {
    if xs != [] {
      var init := xs[..|xs| - 1];
      assert xs == init + [xs[|xs| - 1]];
      assert Distinct(init) by {
        forall i, j | 0 <= i < j < |init| ensures init[i] != init[j] { assert init[i] == xs[i] && init[j] == xs[j]; }
      }
      DistinctCount(init, e);
      if xs[|xs| - 1] == e {
        assert forall i :: 0 <= i < |init| ==> init[i] != e by {
          forall i | 0 <= i < |init| ensures init[i] != e { assert init[i] == xs[i]; }
        }
        assert e !in multiset(init);
      }
    }
  }

  lemma RepeatCount(xs: seq<EnvEntry>, i: nat, j: nat)
    requires i < j < |xs| && xs[i] == xs[j]
    ensures multiset(xs)[xs[i]] >= 2
  {
    assert xs == xs[..j] + [xs[j]] + xs[j + 1..];
    assert xs[i] == xs[..j][i];
    assert xs[i] in multiset(xs[..j]);
  }

  /**
   * Names in a directory are distinct, so the listing is strictly increasing
   * in (group, env_name): the order is fully determined by the names.
   */
  lemma ScanEnvsStrict(names: seq<string>, entries: seq<EnvEntry>)
    requires Distinct(names)
    requires Sorted(entries) && multiset(entries) == multiset(Accepted(names))
    ensures forall i, j :: 0 <= i < j < |entries| ==> EntryLess(entries[i], entries[j])
  {
    AcceptedDistinct(names);
    forall i, j | 0 <= i < j < |entries| ensures EntryLess(entries[i], entries[j]) {
      if entries[i] == entries[j] {
        RepeatCount(entries, i, j);
        DistinctCount(Accepted(names), entries[i]);
        assert false;
      }
    }
  }
}
