/** Slash-separated path names and the component lists they stand for. */
module Paths {
  import opened Prelude

  /** A path as its list of components, outermost directory first. */
  type Path = seq<string>

  function Split(s: string): (q: Path)
    ensures |q| > 0
  {
    if s == "" then [""]
    else
      var rest := Split(s[1..]);
      if s[0] == '/' then [""] + rest else [[s[0]] + rest[0]] + rest[1..]
  }

  function Join(q: Path): string
    requires |q| > 0
  {
    if |q| == 1 then q[0] else q[0] + "/" + Join(q[1..])
  }

  predicate SlashFree(q: Path) {
    forall c <- q :: '/' !in c
  }

  lemma {:induction false} JoinSplit(s: string)
    ensures SlashFree(Split(s))
    ensures Join(Split(s)) == s
  {
    if s != "" {
      var rest, r := Split(s[1..]), Split(s);
      JoinSplit(s[1..]);
      assert s == [s[0]] + s[1..];
      if s[0] == '/' {
        assert r[1..] == rest;
      } else {
        assert r[0] == [s[0]] + rest[0] && r[1..] == rest[1..];
        assert Join(r) == [s[0]] + Join(rest);
        forall c <- r ensures '/' !in c {
          assert c == r[0] || c in rest;
          assert rest[0] in rest;
        }
      }
    }
  }

  lemma {:induction false} SplitJoin(q: Path)
    requires |q| > 0 && SlashFree(q)
    ensures Split(Join(q)) == q
    decreases |Join(q)|
  {
    if q[0] == "" {
      if |q| > 1 {
        assert Join(q)[1..] == Join(q[1..]);
        SplitJoin(q[1..]);
      }
    } else {
      var q' := [q[0][1..]] + q[1..];
      assert q'[1..] == q[1..];
      assert Join(q) == [q[0][0]] + Join(q');
      assert Join(q)[1..] == Join(q');
      assert q[0] in q && q[0][0] in q[0];
      SplitJoin(q');
      assert [q[0][0]] + q[0][1..] == q[0];
      assert [q[0]] + q'[1..] == q;
    }
  }

  lemma {:induction false} JoinSnoc(q: Path, c: string)
    requires |q| > 0
    ensures Join(q + [c]) == Join(q) + "/" + c
  {
    if |q| > 1 {
      assert (q + [c])[1..] == q[1..] + [c];
      JoinSnoc(q[1..], c);
    } else {
      assert (q + [c])[1..] == [c];
    }
  }

  /** A name is "dir/c" exactly when its components are those of dir followed by c. */
  lemma NameInDirectory(name: string, dir: Path, c: string)
    requires |dir| > 0 && SlashFree(dir) && '/' !in c
    ensures name == Join(dir) + "/" + c <==> Split(name) == dir + [c]
  {
    JoinSnoc(dir, c);
    SplitJoin(dir + [c]);
    JoinSplit(name);
  }

  // ---------------------------------------------------------------- other spellings

  /** A component that names something, rather than the directory itself or its parent. */
  predicate Ordinary(c: string) {
    c != "" && c != "." && c != ".."
  }

  function Enter(p: Path, c: string): Path {
    if c == "" || c == "." then p
    else if c == ".." then if p == [] then [] else Init(p)
    else p + [c]
  }

  /** Where a name leads from the root: empty and "." components drop out, ".." steps back. */
  function Clean(q: Path): Path {
    if q == [] then [] else Enter(Clean(Init(q)), Last(q))
  }

  lemma {:induction false} CleanKeepsOrdinary(q: Path)
    requires forall c <- q :: Ordinary(c)
    ensures Clean(q) == q
  {
    if q != [] {
      assert q == Init(q) + [Last(q)] && Ordinary(Last(q));
      forall c | c in Init(q) ensures Ordinary(c) {
        assert c in q;
      }
      CleanKeepsOrdinary(Init(q));
    }
  }

  lemma {:induction false} CleanDropsDot(q: Path)
    ensures Clean(["."] + q) == Clean(q)
  {
    if q == [] {
      assert Init(["."]) == [] && ["."] + q == ["."];
    } else {
      assert Init(["."] + q) == ["."] + Init(q);
      CleanDropsDot(Init(q));
    }
  }

  /** Empty components and "." change nothing wherever they stand, and ".." takes back the component before it. */
  lemma CleanStepsBack(q: Path, c: string)
    requires Ordinary(c)
    ensures Clean(q + [""]) == Clean(q) == Clean(q + ["."])
    ensures Clean(q + [c]) == Clean(q) + [c]
    ensures Clean(q + [c] + [".."]) == Clean(q)
  {
    forall x ensures Clean(q + [x]) == Enter(Clean(q), x) {
      assert Init(q + [x]) == q;
    }
    assert Init(q + [c] + [".."]) == q + [c];
  }
}
