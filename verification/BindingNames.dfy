/** The names of the unowned role bindings: when two DSPAs share one, and what that costs. */
module BindingNames {
  import opened Prelude
  import opened Lifecycle

  /** A namespace that reaches into the other key's name across a dash. */
  predicate Shifts(a: Key, b: Key) {
    && |a.ns| > |b.ns|
    && a.ns[..|b.ns| + 1] == b.ns + "-"
    && b.name == a.ns[|b.ns| + 1..] + "-" + a.name
  }

  lemma ShiftedNames(a: Key, b: Key)
    requires |a.ns| > |b.ns|
    ensures BindingName(a) == BindingName(b) <==> Shifts(a, b)
  {
    var p, x := "ds-pipeline-ui-auth-delegator-", a.ns[|b.ns| + 1..];
    var s, t := a.ns + "-" + a.name, b.ns + "-" + b.name;
    assert BindingName(a)[|p|..] == s && BindingName(b)[|p|..] == t;
    assert a.ns == a.ns[..|b.ns| + 1] + x;
    if s == t {
      assert s[..|b.ns| + 1] == t[..|b.ns| + 1];
      assert s[|b.ns| + 1..] == t[|b.ns| + 1..];
      assert x + "-" + a.name == s[|b.ns| + 1..];
    }
    if Shifts(a, b) {
      assert s == b.ns + "-" + x + "-" + a.name;
      assert t == b.ns + "-" + (x + "-" + a.name);
    }
  }

  /** Two DSPAs share a binding name exactly when one's namespace and the other's name overlap across a dash. */
  lemma BindingNamesCollide(a: Key, b: Key)
    ensures BindingName(a) == BindingName(b) <==> a == b || Shifts(a, b) || Shifts(b, a)
  {
    if |a.ns| > |b.ns| {
      ShiftedNames(a, b);
    } else if |b.ns| > |a.ns| {
      ShiftedNames(b, a);
    } else {
      var p := "ds-pipeline-ui-auth-delegator-";
      var s, t := a.ns + "-" + a.name, b.ns + "-" + b.name;
      assert BindingName(a)[|p|..] == s && BindingName(b)[|p|..] == t;
      assert s[..|a.ns|] == a.ns && t[..|a.ns|] == b.ns;
      assert s[|a.ns| + 1..] == a.name && t[|a.ns| + 1..] == b.name;
    }
  }

  // ------------------------------------------------------------- names that can exist

  predicate LowerAlnum(c: char) {
    'a' <= c <= 'z' || '0' <= c <= '9'
  }

  /** An RFC 1123 label. */
  predicate ValidNamespace(s: string) {
    && 1 <= |s| <= 63 && LowerAlnum(s[0]) && LowerAlnum(s[|s| - 1])
    && forall c <- s :: LowerAlnum(c) || c == '-'
  }

  /** An RFC 1123 subdomain. */
  predicate ValidName(s: string) {
    && 1 <= |s| <= 253 && LowerAlnum(s[0]) && LowerAlnum(s[|s| - 1])
    && (forall c <- s :: LowerAlnum(c) || c == '-' || c == '.')
    && (forall i | 0 < i < |s| - 1 && s[i] == '.' :: LowerAlnum(s[i - 1]) && LowerAlnum(s[i + 1]))
  }

  /** The API server accepts the namespace and the name. */
  predicate ValidKey(k: Key) {
    ValidNamespace(k.ns) && ValidName(k.name)
  }

  /** The namespace can be cut at a dash, or the name can, so that namespace and name of another DSPA come out. */
  ghost predicate Splits(k: Key) {
    || (exists i | 0 <= i < |k.ns| && k.ns[i] == '-' :: ValidKey(Key(k.ns[..i], k.ns[i + 1..] + "-" + k.name)))
    || (exists i | 0 <= i < |k.name| && k.name[i] == '-' :: ValidKey(Key(k.ns + "-" + k.name[..i], k.name[i + 1..])))
  }

  lemma ShiftedAway(k: Key, j: Key)
    requires Shifts(k, j)
    ensures var i := |j.ns|; k.ns[i] == '-' && j == Key(k.ns[..i], k.ns[i + 1..] + "-" + k.name)
  {
    var i := |j.ns|;
    assert k.ns[..i + 1][i] == '-' && k.ns[..i + 1][..i] == k.ns[..i];
  }

  lemma ShiftedInto(k: Key, j: Key)
    requires Shifts(j, k)
    ensures exists i | 0 <= i < |k.name| && k.name[i] == '-' :: j == Key(k.ns + "-" + k.name[..i], k.name[i + 1..])
  {
    var x := j.ns[|k.ns| + 1..];
    assert j.ns == j.ns[..|k.ns| + 1] + x;
    assert k.name[|x|] == '-' && k.name[..|x|] == x && k.name[|x| + 1..] == j.name;
  }

  lemma CutNamespaceShifts(k: Key, i: nat)
    requires i < |k.ns| && k.ns[i] == '-'
    ensures Shifts(k, Key(k.ns[..i], k.ns[i + 1..] + "-" + k.name))
  {
    assert k.ns[..i + 1] == k.ns[..i] + "-";
  }

  lemma CutNameShifts(k: Key, i: nat)
    requires i < |k.name| && k.name[i] == '-'
    ensures Shifts(Key(k.ns + "-" + k.name[..i], k.name[i + 1..]), k)
  {
    var j := Key(k.ns + "-" + k.name[..i], k.name[i + 1..]);
    assert j.ns[..|k.ns| + 1] == k.ns + "-" && j.ns[|k.ns| + 1..] == k.name[..i];
    assert k.name == k.name[..i] + "-" + k.name[i + 1..];
  }

  ghost predicate Unique(k: Key) {
    forall j | ValidKey(j) && BindingName(j) == BindingName(k) :: j == k
  }

  lemma SharedNameSplits(k: Key, j: Key)
    requires ValidKey(j) && BindingName(j) == BindingName(k) && j != k
    ensures Splits(k)
  {
    BindingNamesCollide(j, k);
    if Shifts(k, j) {
      ShiftedAway(k, j);
    } else {
      ShiftedInto(k, j);
    }
  }

  lemma SplitNameIsShared(k: Key) returns (j: Key)
    requires Splits(k)
    ensures ValidKey(j) && BindingName(j) == BindingName(k) && j != k
  {
    if i :| 0 <= i < |k.ns| && k.ns[i] == '-' && ValidKey(Key(k.ns[..i], k.ns[i + 1..] + "-" + k.name)) {
      j := Key(k.ns[..i], k.ns[i + 1..] + "-" + k.name);
      CutNamespaceShifts(k, i);
    } else {
      var i :| 0 <= i < |k.name| && k.name[i] == '-' && ValidKey(Key(k.ns + "-" + k.name[..i], k.name[i + 1..]));
      j := Key(k.ns + "-" + k.name[..i], k.name[i + 1..]);
      CutNameShifts(k, i);
    }
    BindingNamesCollide(j, k);
  }

  /** Whether a DSPA's binding name is its own can be read off its own namespace and name. */
  lemma UniqueExactlyWhen(k: Key)
    ensures Unique(k) <==> !Splits(k)
  {
    if Splits(k) {
      var j := SplitNameIsShared(k);
    }
    if !Unique(k) {
      var j :| ValidKey(j) && BindingName(j) == BindingName(k) && j != k;
      SharedNameSplits(k, j);
    }
  }

  /** The API server lets users create DSPAs under valid names only. */
  predicate Legal(actions: seq<Action>) {
    forall a <- actions | a.Create? :: ValidKey(a.k)
  }

  lemma {:induction false} LegalRunsHaveValidKeys(actions: seq<Action>)
    requires Legal(actions)
    ensures forall k <- Run(actions).dspas :: ValidKey(k)
  {
    if actions != [] {
      assert actions == Init(actions) + [Last(actions)];
      LegalRunsHaveValidKeys(Init(actions));
      EveryRunKeepsInv(Init(actions));
      KeysComeFromCreate(Run(Init(actions)), Last(actions));
    }
  }

  lemma KeysComeFromCreate(s: State, a: Action)
    requires VersionsIdentify(s)
    ensures forall k <- Do(s, a).dspas :: k in s.dspas || (a.Create? && a.k == k)
  {
  }

  /**
   That the binding *named* for `k` exists only while `k` does holds in every run exactly when `k` cannot be
   cut into another DSPA's namespace and name.
   */
  lemma NameProtectedExactlyWhenUnique(k: Key)
    requires ValidKey(k)
    ensures (forall actions | Legal(actions) :: BindingName(k) in Run(actions).bindings ==> k in Run(actions).dspas)
            <==> !Splits(k)
  {
    UniqueExactlyWhen(k);
    if Unique(k) {
      forall actions | Legal(actions) && BindingName(k) in Run(actions).bindings ensures k in Run(actions).dspas {
        EveryRunKeepsInv(actions);
        LegalRunsHaveValidKeys(actions);
        var j := Run(actions).bindings[BindingName(k)];
        assert BindingName(j) == BindingName(k) && ValidKey(j);
      }
    } else {
      var j :| ValidKey(j) && BindingName(j) == BindingName(k) && j != k;
      var a := ReachLegallyBound(j);
      assert BindingName(k) in Run(a).bindings && k !in Run(a).dspas;
    }
  }

  lemma ReachLegallyBound(j: Key) returns (a: seq<Action>)
    requires ValidKey(j)
    ensures Legal(a) && BindingName(j) in Run(a).bindings && Run(a).dspas.Keys == {j}
  {
    a := Extend([], Create(j, false, true));
    a := Extend(a, Begin(j));
    a := Extend(a, Advance(j));
    a := Extend(a, Advance(j));
  }

  /** Two valid DSPAs that share a binding name. */
  lemma ValidNamesCollide()
    ensures var k, j := Key("a-b", "c"), Key("a", "b-c");
      ValidKey(k) && ValidKey(j) && k != j && BindingName(k) == BindingName(j)
  {
    var k, j := Key("a-b", "c"), Key("a", "b-c");
    assert k.ns[..2] == "a" + "-" && k.ns[2..] == "b";
    BindingNamesCollide(k, j);
  }
}
