/**
 The text whose digest rolls the API server out: JSON objects and the platform version run together without
 separators. It still decodes uniquely, because a JSON object ends itself and each part opens with its own key.
 */
module ConfigHash {
  import opened Prelude

  // ------------------------------------------------------------------ JSON objects

  /** How far into a JSON text we are: open braces, inside a string, just after a backslash. */
  datatype Lex = Lex(depth: int, inString: bool, escaped: bool)

  const OUTSIDE: Lex := Lex(0, false, false)

  function Feed(l: Lex, c: char): Lex {
    if l.escaped then l.(escaped := false)
    else if l.inString then if c == '\\' then l.(escaped := true) else l.(inString := c != '"')
    else if c == '"' then l.(inString := true)
    else if c == '{' then l.(depth := l.depth + 1)
    else if c == '}' then l.(depth := l.depth - 1)
    else l
  }

  /** The characters it takes until every brace is closed again. */
  function ObjectLength(l: Lex, s: string): (r: Option<nat>)
    ensures r.Some? ==> 0 < r.value <= |s|
    decreases |s|
  {
    if s == "" then None
    else
      var l' := Feed(l, s[0]);
      if l'.depth == 0 && !l'.inString then Some(1)
      else
        var rest := ObjectLength(l', s[1..]);
        if rest.Some? then Some(1 + rest.value) else None
  }

  const LOAD_SAMPLES: string := "loadSamplesOnRestart"
  const VOLUME_CLAIM: string := "VolumeClaimTemplateSpec"
  const ENDPOINT: string := "endpoint"
  const IMAGE: string := "image"

  function Opening(key: string): string {
    "{\"" + key + "\""
  }

  /** A JSON object whose first key is `key`. */
  predicate IsObject(s: string, key: string) {
    Opening(key) <= s && ObjectLength(OUTSIDE, s) == Some(|s|)
  }

  predicate IsList(s: string) {
    s != "" && s[0] == '[' && Last(s) == ']'
  }

  // --------------------------------------------------------------------- pre-image

  /** The managed-pipelines spec and the list of image variables, both as JSON. */
  datatype Managed = Managed(spec: string, env: string)

  /** What feeds the hash; `workspace` and `plugins` are empty when not configured. */
  datatype Inputs = Inputs(sample: string, workspace: string, plugins: string, version: string,
                           managed: Option<Managed>)

  predicate WellFormed(x: Inputs) {
    && IsObject(x.sample, LOAD_SAMPLES)
    && (x.workspace == "" || IsObject(x.workspace, VOLUME_CLAIM))
    && (x.plugins == "" || IsObject(x.plugins, ENDPOINT))
    && (x.managed.Some? ==> IsObject(x.managed.value.spec, IMAGE) && IsList(x.managed.value.env))
  }

  function Closing(m: Option<Managed>): string {
    if m.Some? then m.value.spec + m.value.env else ""
  }

  function AfterSample(x: Inputs): string {
    x.workspace + (x.plugins + (x.version + Closing(x.managed)))
  }

  function PreImage(x: Inputs): string {
    x.sample + AfterSample(x)
  }

  /** The fields of the reconcile's parameters that the hash is made from, and the hash. */
  class ApiServerParams {
    var sampleConfigJSON: string
    var workspaceJSON: string
    var pluginsJSON: string
    var platformVersion: string
    var managed: Option<Managed>
    var configHash: string

    constructor (workspaceJSON: string, pluginsJSON: string, platformVersion: string, managed: Option<Managed>)
      ensures this.sampleConfigJSON == "" && this.configHash == ""
      ensures this.workspaceJSON == workspaceJSON && this.pluginsJSON == pluginsJSON
      ensures this.platformVersion == platformVersion && this.managed == managed
    {
      this.sampleConfigJSON, this.configHash := "", "";
      this.workspaceJSON, this.pluginsJSON := workspaceJSON, pluginsJSON;
      this.platformVersion, this.managed := platformVersion, managed;
    }

    function Hashed(): Inputs
      reads this
    {
      Inputs(sampleConfigJSON, workspaceJSON, pluginsJSON, platformVersion, managed)
    }

    method SetConfigHash(sampleConfigJSON: string, digest: string -> string)
      modifies this`sampleConfigJSON, this`configHash
      ensures this.sampleConfigJSON == sampleConfigJSON
      ensures configHash == digest(PreImage(Hashed()))
    {
      this.sampleConfigJSON := sampleConfigJSON;
      var input := sampleConfigJSON;
      if workspaceJSON != "" {
        input := sampleConfigJSON + workspaceJSON;
      }
      if pluginsJSON != "" {
        input := input + pluginsJSON;
      }
      input := input + platformVersion;
      if managed.Some? {
        input := input + managed.value.spec;
        input := input + managed.value.env;
      }
      assert input == PreImage(Hashed());
      configHash := digest(input);
    }
  }

  // ------------------------------------------------------------ objects end themselves

  lemma {:induction false} LengthIgnoresRest(l: Lex, s: string, t: string)
    requires ObjectLength(l, s).Some?
    ensures ObjectLength(l, s + t) == ObjectLength(l, s)
    decreases |s|
  {
    assert (s + t)[0] == s[0] && (s + t)[1..] == s[1..] + t;
    var l' := Feed(l, s[0]);
    if !(l'.depth == 0 && !l'.inString) {
      LengthIgnoresRest(l', s[1..], t);
    }
  }

  /** No object is a proper beginning of another, whatever follows either. */
  lemma ObjectsArePrefixFree(a: string, s: string, b: string, t: string, key: string, other: string)
    requires IsObject(a, key) && IsObject(b, other) && a + s == b + t
    ensures a == b && s == t
  {
    LengthIgnoresRest(OUTSIDE, a, s);
    LengthIgnoresRest(OUTSIDE, b, t);
    assert (a + s)[..|a|] == a && (b + t)[..|b|] == b;
    assert (a + s)[|a|..] == s && (b + t)[|b|..] == t;
  }

  // ---------------------------------------------------------------------- decoding

  /** Split off an object with the given first key, if the text opens with one. */
  function Take(s: string, key: string): (string, string) {
    var n := ObjectLength(OUTSIDE, s);
    if Opening(key) <= s && n.Some? then (s[..n.value], s[n.value..]) else ("", s)
  }

  /** Where the first brace followed by a quote stands, or the end of the text. */
  function Cut(s: string): (n: nat)
    ensures n <= |s|
  {
    if |s| < 2 then |s|
    else if s[0] == '{' && s[1] == '"' then 0
    else 1 + Cut(s[1..])
  }

  /** The text does not contain the beginning of a JSON object with a key. */
  predicate NoObject(v: string) {
    forall i | 0 <= i < |v| - 1 :: !(v[i] == '{' && v[i + 1] == '"')
  }

  function Decode(s: string): Inputs {
    var (sample, r0) := Take(s, LOAD_SAMPLES);
    var (workspace, r1) := Take(r0, VOLUME_CLAIM);
    var (plugins, r2) := Take(r1, ENDPOINT);
    var n := Cut(r2);
    var (spec, env) := Take(r2[n..], IMAGE);
    Inputs(sample, workspace, plugins, r2[..n], if n == |r2| then None else Some(Managed(spec, env)))
  }

  lemma TakeFindsObject(o: string, rest: string, key: string)
    requires IsObject(o, key)
    ensures Take(o + rest, key) == (o, rest)
  {
    LengthIgnoresRest(OUTSIDE, o, rest);
    assert (o + rest)[..|o|] == o && (o + rest)[|o|..] == rest;
    assert Opening(key) <= o + rest;
  }

  lemma {:induction false} CutSplits(v: string, m: string)
    requires NoObject(v) && (m == "" || Opening(IMAGE) <= m)
    ensures Cut(v + m) == |v|
  {
    if v == "" {
      assert v + m == m;
    } else {
      assert (v + m)[0] == v[0] && (v + m)[1..] == v[1..] + m;
      CutSplits(v[1..], m);
    }
  }

  lemma {:induction false} CutLeavesNoObject(s: string)
    ensures NoObject(s[..Cut(s)])
  {
    if |s| >= 2 && !(s[0] == '{' && s[1] == '"') {
      CutLeavesNoObject(s[1..]);
      var v, w := s[..Cut(s)], s[1..][..Cut(s[1..])];
      assert v == [s[0]] + w;
      forall i | 0 <= i < |v| - 1 ensures !(v[i] == '{' && v[i + 1] == '"') {
        if i > 0 {
          assert v[i] == w[i - 1] && v[i + 1] == w[i];
        }
      }
    }
  }

  /** What follows an absent part cannot be taken for it: the keys differ, and the version opens no object. */
  lemma VersionOpensNothing(v: string, m: string, key: string)
    requires NoObject(v) && (m == "" || Opening(IMAGE) <= m) && key != "" && key[0] != 'i'
    ensures !(Opening(key) <= v + m)
  {
    var t := v + m;
    assert Opening(key)[0] == '{' && Opening(key)[1] == '"' && Opening(key)[2] == key[0];
    if |v| >= 2 {
      assert t[0] == v[0] && t[1] == v[1];
    } else if |v| == 1 {
      assert |t| >= 2 ==> t[1] == m[0] == Opening(IMAGE)[0];
    } else {
      assert t == m;
      assert m != "" ==> t[2] == Opening(IMAGE)[2] == IMAGE[0];
    }
  }

  /** Decoding gives the inputs back exactly when the platform version contains no `{"`. */
  lemma DecodesExactlyWhen(x: Inputs)
    requires WellFormed(x)
    ensures Decode(PreImage(x)) == x <==> NoObject(x.version)
  {
    var m := Closing(x.managed);
    var r2 := x.version + m;
    var r1 := x.plugins + r2;
    if NoObject(x.version) {
      TakeFindsObject(x.sample, x.workspace + r1, LOAD_SAMPLES);
      VersionOpensNothing(x.version, m, VOLUME_CLAIM);
      VersionOpensNothing(x.version, m, ENDPOINT);
      TakesParts(x, r2);
      TakesManaged(x);
    } else {
      var (_, r0) := Take(PreImage(x), LOAD_SAMPLES);
      var (_, s1) := Take(r0, VOLUME_CLAIM);
      var (_, s2) := Take(s1, ENDPOINT);
      CutLeavesNoObject(s2);
    }
  }

  lemma TakesParts(x: Inputs, r2: string)
    requires WellFormed(x) && !(Opening(VOLUME_CLAIM) <= r2) && !(Opening(ENDPOINT) <= r2)
    ensures Take(x.workspace + (x.plugins + r2), VOLUME_CLAIM) == (x.workspace, x.plugins + r2)
    ensures Take(x.plugins + r2, ENDPOINT) == (x.plugins, r2)
  {
    if x.plugins == "" {
      assert x.plugins + r2 == r2;
    } else {
      TakeFindsObject(x.plugins, r2, ENDPOINT);
      assert (x.plugins + r2)[2] == x.plugins[2] == ENDPOINT[0];
      assert !(Opening(VOLUME_CLAIM) <= x.plugins + r2) by { assert Opening(VOLUME_CLAIM)[2] == VOLUME_CLAIM[0]; }
    }
    if x.workspace == "" {
      assert x.workspace + (x.plugins + r2) == x.plugins + r2;
    } else {
      TakeFindsObject(x.workspace, x.plugins + r2, VOLUME_CLAIM);
    }
  }

  lemma TakesManaged(x: Inputs)
    requires WellFormed(x) && NoObject(x.version)
    ensures var r2 := x.version + Closing(x.managed);
      && Cut(r2) == |x.version| && r2[..Cut(r2)] == x.version
      && (x.managed.None? ==> Cut(r2) == |r2|)
      && (x.managed.Some? ==> Cut(r2) < |r2|)
      && (x.managed.Some? ==> Take(r2[Cut(r2)..], IMAGE) == (x.managed.value.spec, x.managed.value.env))
  {
    var m := Closing(x.managed);
    if x.managed.Some? {
      TakeFindsObject(x.managed.value.spec, x.managed.value.env, IMAGE);
    }
    CutSplits(x.version, m);
    assert (x.version + m)[|x.version|..] == m;
  }

  /** So any change to any input changes what is hashed, as long as no version contains `{"`. */
  lemma AnyChangeIsHashed(x: Inputs, y: Inputs)
    requires WellFormed(x) && WellFormed(y) && NoObject(x.version) && NoObject(y.version)
    ensures PreImage(x) == PreImage(y) <==> x == y
  {
    DecodesExactlyWhen(x);
    DecodesExactlyWhen(y);
  }

  // -------------------------------------------------------- which inputs can be confused

  /** The version begins with an object of that key. */
  ghost predicate BeginsWithObject(v: string, key: string) {
    exists n: nat | n <= |v| :: IsObject(v[..n], key)
  }

  /** The version ends like a managed-pipelines part. */
  ghost predicate EndsInManaged(v: string) {
    exists i: nat, n: nat | i <= n <= |v| :: IsObject(v[i..n], IMAGE) && IsList(v[n..])
  }

  /** The version spells out an optional part of the inputs. */
  ghost predicate SpellsPart(v: string) {
    BeginsWithObject(v, VOLUME_CLAIM) || BeginsWithObject(v, ENDPOINT) || EndsInManaged(v)
  }

  predicate Plain(x: Inputs) {
    x.workspace == "" && x.plugins == "" && x.managed.None?
  }

  /** Some other inputs hash the same text. */
  ghost predicate Confusable(x: Inputs) {
    exists y :: WellFormed(y) && y != x && PreImage(y) == PreImage(x)
  }

  /**
   For arbitrary versions, the inputs that some other inputs can be confused with are exactly these: those
   with an optional part, whose text a version could also spell out, and those whose version spells one out.
   */
  lemma ConfusableExactlyWhen(x: Inputs)
    requires WellFormed(x)
    ensures Confusable(x) <==>
      !Plain(x) || SpellsPart(x.version)
  {
    if !Plain(x) {
      var y := Inputs(x.sample, "", "", AfterSample(x), None);
      assert AfterSample(y) == AfterSample(x);
      assert WellFormed(y) && y != x && PreImage(y) == PreImage(x);
    } else {
      if SpellsPart(x.version) {
        PlainConfusableIf(x);
      }
      if Confusable(x) {
        var y :| WellFormed(y) && y != x && PreImage(y) == PreImage(x);
        PlainConfusableOnlyIf(x, y);
      }
    }
  }

  /** Inputs that differ only after the sample, but run together to the same text there, are confused. */
  lemma SameTextConfuses(x: Inputs, y: Inputs)
    requires WellFormed(y) && y != x && y.sample == x.sample && AfterSample(y) == AfterSample(x)
    ensures Confusable(x)
  {
    assert PreImage(y) == PreImage(x);
  }

  lemma WorkspaceInVersionConfuses(x: Inputs, n: nat)
    requires WellFormed(x) && Plain(x) && n <= |x.version| && IsObject(x.version[..n], VOLUME_CLAIM)
    ensures Confusable(x)
  {
    var v := x.version;
    assert v == v[..n] + v[n..];
    SameTextConfuses(x, Inputs(x.sample, v[..n], "", v[n..], None));
  }

  lemma PluginsInVersionConfuse(x: Inputs, n: nat)
    requires WellFormed(x) && Plain(x) && n <= |x.version| && IsObject(x.version[..n], ENDPOINT)
    ensures Confusable(x)
  {
    var v := x.version;
    assert v == v[..n] + v[n..];
    SameTextConfuses(x, Inputs(x.sample, "", v[..n], v[n..], None));
  }

  lemma ManagedInVersionConfuses(x: Inputs, i: nat, n: nat)
    requires WellFormed(x) && Plain(x) && i <= n <= |x.version|
    requires IsObject(x.version[i..n], IMAGE) && IsList(x.version[n..])
    ensures Confusable(x)
  {
    var v := x.version;
    assert v == v[..i] + (v[i..n] + v[n..]);
    SameTextConfuses(x, Inputs(x.sample, "", "", v[..i], Some(Managed(v[i..n], v[n..]))));
  }

  lemma PlainConfusableIf(x: Inputs)
    requires WellFormed(x) && Plain(x)
    requires SpellsPart(x.version)
    ensures Confusable(x)
  {
    var v := x.version;
    if n: nat :| n <= |v| && IsObject(v[..n], VOLUME_CLAIM) {
      WorkspaceInVersionConfuses(x, n);
    } else if n: nat :| n <= |v| && IsObject(v[..n], ENDPOINT) {
      PluginsInVersionConfuse(x, n);
    } else {
      var i: nat, n: nat :| i <= n <= |v| && IsObject(v[i..n], IMAGE) && IsList(v[n..]);
      ManagedInVersionConfuses(x, i, n);
    }
  }

  /** A text that inputs with optional parts run together to spells one of those parts out. */
  lemma PartsAreSpelledOut(y: Inputs, v: string)
    requires WellFormed(y) && AfterSample(y) == v && !Plain(y)
    ensures SpellsPart(v)
  {
    if y.workspace != "" {
      assert v[..|y.workspace|] == y.workspace;
    } else if y.plugins != "" {
      assert v == y.plugins + (y.version + Closing(y.managed));
      assert v[..|y.plugins|] == y.plugins;
    } else {
      assert v == y.version + Closing(y.managed);
      var i, n := |y.version|, |y.version| + |y.managed.value.spec|;
      assert v[i..n] == y.managed.value.spec && v[n..] == y.managed.value.env;
    }
  }

  lemma PlainConfusableOnlyIf(x: Inputs, y: Inputs)
    requires WellFormed(x) && Plain(x) && WellFormed(y) && y != x && PreImage(y) == PreImage(x)
    ensures SpellsPart(x.version)
  {
    ObjectsArePrefixFree(x.sample, AfterSample(x), y.sample, AfterSample(y), LOAD_SAMPLES, LOAD_SAMPLES);
    assert AfterSample(x) == x.version;
    assert Plain(y) ==> AfterSample(y) == y.version;
    if !Plain(y) {
      PartsAreSpelledOut(y, x.version);
    }
  }

  /** A version that spells out a plugin configuration: which of the two it is cannot be told. */
  lemma VersionLikePlugins(sample: string, plugins: string)
    requires IsObject(sample, LOAD_SAMPLES) && IsObject(plugins, ENDPOINT)
    ensures var x, y := Inputs(sample, "", "", plugins, None), Inputs(sample, "", plugins, "", None);
      WellFormed(x) && WellFormed(y) && x != y && PreImage(x) == PreImage(y) && Decode(PreImage(x)) != x
  {
    var x, y := Inputs(sample, "", "", plugins, None), Inputs(sample, "", plugins, "", None);
    assert AfterSample(x) == plugins == AfterSample(y);
    assert Opening(ENDPOINT)[0] == '{' && Opening(ENDPOINT)[1] == '"';
    assert plugins[0] == '{' && plugins[1] == '"';
    DecodesExactlyWhen(x);
  }
}
