/** Normalising the operator's RELATED_IMAGE_* environment into an ordered list. */
module EnvVars {
  import opened Prelude
  import opened Text

  const PREFIX: string := "RELATED_IMAGE_"

  datatype EnvVar = EnvVar(name: string, value: string)
  datatype Normalised = InvalidName(key: string) | Normalised(vars: seq<EnvVar>)

  predicate ValidNameChar(c: char) {
    'A' <= c <= 'Z' || '0' <= c <= '9' || c == '_'
  }

  predicate ValidName(name: string) {
    name != "" && forall c <- name :: ValidNameChar(c)
  }

  method IsValidEnvVarName(name: string) returns (r: bool)
    ensures r == ValidName(name)
  {
    for i := 0 to |name|
      invariant forall c <- name[..i] :: ValidNameChar(c)
    {
      if !ValidNameChar(name[i]) {
        assert name[i] in name;
        return false;
      }
    }
    assert name[..|name|] == name;
    return |name| > 0;
  }

  /** The trimmed key and value of a "KEY=VALUE" string, if it carries the prefix. */
  function Parse(raw: string): Option<EnvVar> {
    match Cut(raw, '=')
    case None => None
    case Some((k, v)) => if PREFIX <= TrimSpace(k) then Some(EnvVar(TrimSpace(k), TrimSpace(v))) else None
  }

  predicate BadKey(raw: string) {
    Parse(raw).Some? && (|Parse(raw).value.name| == |PREFIX| || !ValidName(Parse(raw).value.name))
  }

  predicate Sets(raw: string, key: string) {
    Parse(raw).Some? && Parse(raw).value.name == key && Parse(raw).value.value != ""
  }

  /** The value that the last entry setting `key` gives it, if any entry does. */
  function LastValue(environ: seq<string>, key: string): (r: Option<string>)
    ensures r.Some? <==> exists raw <- environ :: Sets(raw, key)
  {
    if environ == [] then None
    else if Sets(Last(environ), key) then Some(Parse(Last(environ)).value.value)
    else
      assert environ == Init(environ) + [Last(environ)];
      LastValue(Init(environ), key)
  }

  predicate Ascending(vars: seq<EnvVar>) {
    forall i, j | 0 <= i < j < |vars| :: Less(vars[i].name, vars[j].name)
  }

  /** Strictly ascending names, and exactly the keys that are set, each with its last value. */
  ghost predicate Represents(vars: seq<EnvVar>, environ: seq<string>) {
    && Ascending(vars)
    && (forall v :: v in vars <==> LastValue(environ, v.name) == Some(v.value))
  }

  /** The text spells this setting: "KEY=VALUE" with white space around either part, and the key with its prefix. */
  ghost predicate Spells(raw: string, v: EnvVar) {
    exists key: string, value: string ::
      raw == key + "=" + value && '=' !in key && Trims(v.name, key) && Trims(v.value, value)
      && "RELATED_IMAGE_" <= v.name
  }

  lemma ParseExactly(raw: string, v: EnvVar)
    ensures Parse(raw) == Some(v) <==> Spells(raw, v)
  {
    if Parse(raw) == Some(v) {
      var (key, value) := Cut(raw, '=').value;
      TrimSpaceTrims(key);
      TrimSpaceTrims(value);
      assert raw == key + "=" + value;
    }
    if Spells(raw, v) {
      var key: string, value: string :|
        raw == key + "=" + value && '=' !in key && Trims(v.name, key) && Trims(v.value, value)
        && "RELATED_IMAGE_" <= v.name;
      CutIsUnique(key, value, '=');
      TrimsIsUnique(v.name, key);
      TrimsIsUnique(v.value, value);
    }
  }

  /** What is cut off is what stands before the first separator. */
  lemma CutIsUnique(a: string, b: string, sep: char)
    requires sep !in a
    ensures Cut(a + [sep] + b, sep) == Some((a, b))
  {
    var s := a + [sep] + b;
    assert s[|a|] == sep;
    var (c, d) := Cut(s, sep).value;
    assert forall m | 0 <= m < |c| :: s[m] == c[m] && s[m] != sep;
    assert forall m | 0 <= m < |a| :: s[m] == a[m] && s[m] != sep;
    assert s[|c|] == sep && |c| == |a|;
    assert c == s[..|c|] == a && d == s[|c| + 1..] == b;
  }

  /** The entry gives the variable this non-empty value. */
  ghost predicate Gives(raw: string, v: EnvVar) {
    Spells(raw, v) && v.value != ""
  }

  lemma SetsExactly(raw: string, key: string)
    ensures Sets(raw, key) <==> exists value :: Gives(raw, EnvVar(key, value))
    ensures Sets(raw, key) ==> Gives(raw, Parse(raw).value)
    ensures forall v :: Gives(raw, v) ==> Parse(raw) == Some(v)
  {
    forall v { ParseExactly(raw, v); }
    if Sets(raw, key) {
      var v := Parse(raw).value;
      assert v == EnvVar(key, v.value);
    }
  }

  /** Entry `i` gives the variable its value, and no later entry gives it any. */
  ghost predicate GivenLast(environ: seq<string>, v: EnvVar, i: int) {
    && 0 <= i < |environ| && Gives(environ[i], v)
    && forall j, value | i < j < |environ| :: !Gives(environ[j], EnvVar(v.name, value))
  }

  lemma {:induction false} LastValueExactly(environ: seq<string>, v: EnvVar)
    ensures LastValue(environ, v.name) == Some(v.value) <==> exists i :: GivenLast(environ, v, i)
  {
    if environ != [] {
      var n, before := |environ| - 1, Init(environ);
      SetsExactly(environ[n], v.name);
      if Sets(environ[n], v.name) {
        GivenByNewest(environ, v);
      } else {
        LastValueExactly(before, v);
        forall i { GivenBefore(environ, v, i); }
      }
    }
  }

  lemma GivenByNewest(environ: seq<string>, v: EnvVar)
    requires environ != [] && Sets(Last(environ), v.name)
    ensures LastValue(environ, v.name) == Some(v.value) <==> exists i :: GivenLast(environ, v, i)
  {
    var n := |environ| - 1;
    SetsExactly(environ[n], v.name);
    var w := Parse(environ[n]).value;
    assert w == EnvVar(v.name, w.value) && Gives(environ[n], w);
    if i :| GivenLast(environ, v, i) {
      assert i == n;
    }
    if w == v {
      assert GivenLast(environ, v, n);
    }
  }

  lemma GivenBefore(environ: seq<string>, v: EnvVar, i: int)
    requires environ != [] && !Sets(Last(environ), v.name)
    ensures GivenLast(environ, v, i) <==> GivenLast(Init(environ), v, i)
  {
    SetsExactly(Last(environ), v.name);
    assert v == EnvVar(v.name, v.value);
  }

  /** So the list has exactly the variables that some entry gives a value, each with the last value it is given. */
  lemma ListedExactly(vars: seq<EnvVar>, environ: seq<string>)
    requires Represents(vars, environ)
    ensures forall v :: v in vars <==> exists i :: GivenLast(environ, v, i)
    ensures forall i, j | 0 <= i < j < |vars| :: ComesBefore(vars[i].name, vars[j].name)
  {
    forall v ensures v in vars <==> exists i :: GivenLast(environ, v, i) { LastValueExactly(environ, v); }
    forall i, j | 0 <= i < j < |vars| ensures ComesBefore(vars[i].name, vars[j].name) {
      LessExactly(vars[i].name, vars[j].name);
    }
  }

  /** The code points of the 37 characters that a variable name can have: A to Z, 0 to 9, and the underscore. */
  predicate NameCode(n: int) {
    65 <= n <= 90 || 48 <= n <= 57 || n == 95
  }

  /** An entry is refused exactly for a key that is the bare prefix or has a character no variable name has. */
  lemma RefusedExactly(raw: string)
    ensures BadKey(raw) <==>
      exists v :: Spells(raw, v) && (v.name == "RELATED_IMAGE_" ||
        exists c <- v.name :: !NameCode(c as int))
  {
    forall v { ParseExactly(raw, v); }
    assert forall c :: NameCode(c as int) <==> ValidNameChar(c);
    if BadKey(raw) {
      assert Spells(raw, Parse(raw).value);
    }
  }

  /** Only one list represents an environment, so map iteration order cannot show. */
  lemma RepresentationIsUnique(a: seq<EnvVar>, b: seq<EnvVar>, environ: seq<string>)
    requires Represents(a, environ) && Represents(b, environ)
    ensures a == b
  {
    AscendingIsDetermined(a, b);
  }

  lemma {:induction false} AscendingIsDetermined(a: seq<EnvVar>, b: seq<EnvVar>)
    requires Ascending(a) && Ascending(b)
    requires forall v :: v in a <==> v in b
    ensures a == b
  {
    assert a != [] ==> a[0] in a;
    assert b != [] ==> b[0] in b;
    if a != [] && b != [] {
      assert a[0] in a && b[0] in b;
      if a[0] != b[0] {
        var i :| 0 <= i < |b| && b[i] == a[0];
        var j :| 0 <= j < |a| && a[j] == b[0];
        LessIsStrictTotal(a[0].name, b[0].name);
        assert false;
      }
      forall v ensures v in a[1..] <==> v in b[1..] {
        TailMembers(a, v);
        TailMembers(b, v);
      }
      AscendingIsDetermined(a[1..], b[1..]);
      assert a == [a[0]] + a[1..] && b == [b[0]] + b[1..];
    }
  }

  lemma TailMembers(a: seq<EnvVar>, v: EnvVar)
    requires a != [] && Ascending(a)
    ensures v in a[1..] <==> v in a && v != a[0]
  {
    if v in a[1..] {
      var i :| 1 <= i < |a| && a[i] == v;
      LessIsStrictTotal(v.name, v.name);
    }
  }

  /** One step of the sort: put `x` in its place. */
  method InsertByName(xs: seq<EnvVar>, x: EnvVar) returns (r: seq<EnvVar>)
    requires Ascending(xs) && forall y <- xs :: y.name != x.name
    ensures Ascending(r)
    ensures forall v :: v in r <==> v in xs || v == x
  {
    var i := |xs|;
    while i > 0 && Less(x.name, xs[i - 1].name)
      invariant 0 <= i <= |xs|
      invariant forall j | i <= j < |xs| :: Less(x.name, xs[j].name)
    {
      i := i - 1;
    }
    r := xs[..i] + [x] + xs[i..];
    forall j | 0 <= j < i ensures Less(xs[j].name, x.name) {
      assert xs[i - 1] in xs;
      LessIsStrictTotal(xs[i - 1].name, x.name);
      if j < i - 1 {
        LessTransitive(xs[j].name, xs[i - 1].name, x.name);
      }
    }
    forall v | v in xs ensures v in r {
      var j :| 0 <= j < |xs| && xs[j] == v;
      assert r[if j < i then j else j + 1] == v;
    }
    assert r[i] == x;
  }

  method SortByName(xs: seq<EnvVar>) returns (r: seq<EnvVar>)
    requires forall i, j | 0 <= i < j < |xs| :: xs[i].name != xs[j].name
    ensures Ascending(r)
    ensures forall v :: v in r <==> v in xs
  {
    r := [];
    for i := 0 to |xs|
      invariant Ascending(r)
      invariant forall v :: v in r <==> v in xs[..i]
    {
      assert xs[..i + 1] == xs[..i] + [xs[i]];
      r := InsertByName(r, xs[i]);
    }
    assert xs[..|xs|] == xs;
  }

  /** Collect the map's entries in whatever order the map yields them. */
  method ListEntries(cleaned: map<string, string>) returns (out: seq<EnvVar>)
    ensures forall v :: v in out <==> v.name in cleaned && cleaned[v.name] == v.value
    ensures forall i, j | 0 <= i < j < |out| :: out[i].name != out[j].name
  {
    out := [];
    var pending := cleaned.Keys;
    while pending != {}
      invariant pending <= cleaned.Keys
      invariant forall v :: v in out <==> v.name in cleaned.Keys - pending && cleaned[v.name] == v.value
      invariant forall i, j | 0 <= i < j < |out| :: out[i].name != out[j].name
    {
      var key :| key in pending;
      pending := pending - {key};
      assert forall v <- out :: v.name != key;
      out := out + [EnvVar(key, cleaned[key])];
    }
  }

  method ManagedPipelineImageEnvFromEnviron(environ: seq<string>) returns (r: Normalised)
    ensures r.InvalidName? <==> exists raw <- environ :: BadKey(raw)
    ensures r.Normalised? ==> Represents(r.vars, environ)
  {
    var cleaned: map<string, string> := map[];
    for i := 0 to |environ|
      invariant forall raw <- environ[..i] :: !BadKey(raw)
      invariant forall k :: LastValue(environ[..i], k) == if k in cleaned then Some(cleaned[k]) else None
    {
      assert environ[..i + 1] == environ[..i] + [environ[i]];
      assert Init(environ[..i + 1]) == environ[..i];
      var parsed := Parse(environ[i]);
      if parsed.None? {
        continue;
      }
      var EnvVar(key, value) := parsed.value;
      var valid := IsValidEnvVarName(key);
      if |key| == |PREFIX| || !valid {
        assert environ[i] in environ;
        return InvalidName(key);
      }
      if value == "" {
        continue;
      }
      cleaned := cleaned[key := value];
    }
    assert environ[..|environ|] == environ;
    var out := ListEntries(cleaned);
    out := SortByName(out);
    return Normalised(out);
  }
}
