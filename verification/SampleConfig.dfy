/** The list of pipelines that the API server is told to load. */
module SampleConfig {
  import opened Prelude
  import opened Text

  /** Operator configuration for one pipeline; `versionName` falls back on the name. */
  datatype Metadata = Metadata(name: string, file: string, description: string,
                               versionName: Option<string>, versionDescription: string)

  datatype Entry = Entry(name: string, file: string, description: string, versionName: string,
                         versionDescription: string)

  datatype Listing = NoMetadata | Duplicate(name: string) | Listing(entries: seq<Entry>)

  const IRIS: string := "iris"

  function MetadataBlock(m: Metadata, version: string): Entry {
    var versionName := if m.versionName.Some? then m.versionName.value else m.name;
    Entry(m.name, m.file, m.description, versionName + " - " + version, m.versionDescription)
  }

  /** Operator metadata when there is any, else a minimal entry for the file the init container puts there. */
  function ManagedEntry(metadata: string -> Option<Metadata>, pipeline: string, version: string): Entry {
    match metadata(pipeline)
    case Some(m) => MetadataBlock(m, version).(versionName := version)
    case None => Entry(pipeline, "/config/managed-pipelines/" + pipeline + ".yaml", "", version, "")
  }

  /** The pipelines that are listed once each, ignoring case; Iris counts as listed if samples are enabled. */
  function Names(samples: bool, pipelines: seq<string>): seq<string> {
    (if samples then [IRIS] else []) + Kept(samples, pipelines)
  }

  function Kept(samples: bool, pipelines: seq<string>): seq<string> {
    if pipelines == [] then []
    else Kept(samples, Init(pipelines)) + if samples && EqualFold(Last(pipelines), IRIS) then [] else [Last(pipelines)]
  }

  /** No two names differ in case alone. */
  predicate DistinctFolded(names: seq<string>) {
    forall i, j | 0 <= i < j < |names| :: !EqualFold(names[i], names[j])
  }

  function EntryFor(metadata: string -> Option<Metadata>, samples: bool, name: string, version: string): Entry {
    if samples && name == IRIS && metadata(IRIS).Some? then MetadataBlock(metadata(IRIS).value, version)
    else ManagedEntry(metadata, name, version)
  }

  predicate Lists(entries: seq<Entry>, metadata: string -> Option<Metadata>, samples: bool, names: seq<string>,
                  version: string) {
    |entries| == |names| && forall i | 0 <= i < |names| :: entries[i] == EntryFor(metadata, samples, names[i], version)
  }

  /** The seen keys are the folded names so far. */
  ghost predicate Folds(seen: set<string>, names: seq<string>) {
    forall key :: key in seen <==> exists j | 0 <= j < |names| :: ToLower(names[j]) == key
  }

  lemma FoldsOneMore(seen: set<string>, names: seq<string>, p: string)
    requires Folds(seen, names) && DistinctFolded(names)
    ensures DistinctFolded(names + [p]) <==> ToLower(p) !in seen
    ensures Folds(seen + {ToLower(p)}, names + [p])
  {
    var more := names + [p];
    if j :| 0 <= j < |names| && ToLower(names[j]) == ToLower(p) {
      assert EqualFold(more[j], more[|names|]);
    }
    forall key ensures key in seen + {ToLower(p)} <==> exists j | 0 <= j < |more| :: ToLower(more[j]) == key {
      if j :| 0 <= j < |names| && ToLower(names[j]) == key {
        assert ToLower(more[j]) == key;
      }
      assert more[|names|] == p;
    }
  }

  method GenerateSampleConfig(metadata: string -> Option<Metadata>, samples: bool, pipelines: seq<string>,
                              version: string)
    returns (r: Listing)
    ensures r.NoMetadata? <==> samples && metadata(IRIS).None?
    ensures r.Duplicate? <==> !(samples && metadata(IRIS).None?) && !DistinctFolded(pipelines)
    ensures r.Duplicate? ==> exists j | 0 < j < |pipelines| ::
      r.name == pipelines[j] && DistinctFolded(pipelines[..j]) && !DistinctFolded(pipelines[..j + 1])
    ensures r.Listing? ==> Lists(r.entries, metadata, samples, Names(samples, pipelines), version)
  {
    var entries: seq<Entry> := [];
    if samples {
      if metadata(IRIS).None? {
        return NoMetadata;
      }
      entries := [MetadataBlock(metadata(IRIS).value, version)];
    }
    var seen: set<string> := {};
    for i := 0 to |pipelines|
      invariant DistinctFolded(pipelines[..i])
      invariant Folds(seen, pipelines[..i])
      invariant Lists(entries, metadata, samples, Names(samples, pipelines[..i]), version)
    {
      assert Init(pipelines[..i + 1]) == pipelines[..i] && pipelines[..i + 1] == pipelines[..i] + [pipelines[i]];
      var p := pipelines[i];
      FoldsOneMore(seen, pipelines[..i], p);
      var key := ToLower(p);
      if key in seen {
        if DistinctFolded(pipelines) { DistinctToThere(pipelines, i + 1); }
        return Duplicate(p);
      }
      seen := seen + {key};
      if samples && EqualFold(p, IRIS) {
        continue;
      }
      entries := entries + [ManagedEntry(metadata, p, version)];
    }
    assert pipelines[..|pipelines|] == pipelines;
    return Listing(entries);
  }

  lemma DistinctToThere(names: seq<string>, i: nat)
    requires i <= |names| && DistinctFolded(names)
    ensures DistinctFolded(names[..i])
  {
  }

  predicate Listed(names: seq<string>, p: string) {
    exists n <- names :: EqualFold(n, p)
  }

  /**
   Each name asked for, and Iris if samples are enabled, is listed exactly once ignoring case, and nothing else is.
   */
  lemma NamesAreExact(samples: bool, pipelines: seq<string>)
    requires DistinctFolded(pipelines)
    ensures DistinctFolded(Names(samples, pipelines))
    ensures forall p ::
      Listed(Names(samples, pipelines), p) <==> (samples && EqualFold(IRIS, p)) || Listed(pipelines, p)
  {
    KeptAreExact(samples, pipelines);
    var names, kept := Names(samples, pipelines), Kept(samples, pipelines);
    forall i, j | 0 <= i < j < |names| ensures !EqualFold(names[i], names[j]) {
      var iris := if samples then 1 else 0;
      assert names[j] == kept[j - iris] && kept[j - iris] in kept;
      assert i >= iris ==> names[i] == kept[i - iris];
    }
    forall p ensures Listed(names, p) <==> (samples && EqualFold(IRIS, p)) || Listed(pipelines, p) {
      assert samples ==> names[0] == IRIS;
      if q :| q in pipelines && EqualFold(q, p) && !(samples && EqualFold(IRIS, p)) {
        assert q in kept && q in names;
      }
      if n :| n in names && EqualFold(n, p) && !(samples && EqualFold(IRIS, p)) {
        assert n in kept && n in pipelines;
      }
    }
  }

  lemma {:induction false} KeptAreExact(samples: bool, pipelines: seq<string>)
    requires DistinctFolded(pipelines)
    ensures DistinctFolded(Kept(samples, pipelines))
    ensures forall q :: q in Kept(samples, pipelines) <==> q in pipelines && !(samples && EqualFold(q, IRIS))
  {
    if pipelines != [] {
      var p, kept := Last(pipelines), Kept(samples, Init(pipelines));
      KeptAreExact(samples, Init(pipelines));
      assert pipelines == Init(pipelines) + [p];
      forall i | 0 <= i < |kept| ensures !EqualFold(kept[i], p) {
        assert kept[i] in Init(pipelines);
        var j :| 0 <= j < |pipelines| - 1 && pipelines[j] == kept[i];
      }
    }
  }

  /** The names asked for come in the order asked for. */
  lemma {:induction false} KeptInOrder(samples: bool, pipelines: seq<string>, i: nat, j: nat)
    requires i < j < |Kept(samples, pipelines)|
    ensures exists p, q | 0 <= p < q < |pipelines| ::
      pipelines[p] == Kept(samples, pipelines)[i] && pipelines[q] == Kept(samples, pipelines)[j]
  {
    var kept, before := Kept(samples, pipelines), Kept(samples, Init(pipelines));
    if j < |before| {
      KeptInOrder(samples, Init(pipelines), i, j);
      var p, q :| 0 <= p < q < |pipelines| - 1 && Init(pipelines)[p] == kept[i] && Init(pipelines)[q] == kept[j];
      assert pipelines[p] == kept[i] && pipelines[q] == kept[j];
    } else {
      KeptWasAsked(samples, Init(pipelines), i);
      var p :| 0 <= p < |pipelines| - 1 && Init(pipelines)[p] == kept[i];
      assert pipelines[p] == kept[i] && pipelines[|pipelines| - 1] == kept[j];
    }
  }

  lemma {:induction false} KeptWasAsked(samples: bool, pipelines: seq<string>, i: nat)
    requires i < |Kept(samples, pipelines)|
    ensures exists p | 0 <= p < |pipelines| :: pipelines[p] == Kept(samples, pipelines)[i]
    ensures samples ==> !EqualFold(Kept(samples, pipelines)[i], IRIS)
  {
    if i < |Kept(samples, Init(pipelines))| {
      KeptWasAsked(samples, Init(pipelines), i);
      var p :| 0 <= p < |pipelines| - 1 && Init(pipelines)[p] == Kept(samples, pipelines)[i];
      assert pipelines[p] == Kept(samples, pipelines)[i];
    } else {
      assert pipelines[|pipelines| - 1] == Kept(samples, pipelines)[i];
    }
  }

  /** The entry a name gets from the operator's metadata, or without any from the name alone. */
  predicate Describes(e: Entry, name: string, m: Option<Metadata>) {
    match m
    case Some(m) =>
      e.name == m.name && e.file == m.file && e.description == m.description
      && e.versionDescription == m.versionDescription
    case None =>
      e.name == name && e.file == "/config/managed-pipelines/" + name + ".yaml"
      && e.description == "" && e.versionDescription == ""
  }

  /**
   Each entry describes its name, Iris coming first where samples are enabled; the version of a pipeline that
   was asked for is the platform's, and that of the sample is named after it as well.
   */
  lemma EntriesExactly(entries: seq<Entry>, metadata: string -> Option<Metadata>, samples: bool,
                       pipelines: seq<string>, version: string, i: nat)
    requires Lists(entries, metadata, samples, Names(samples, pipelines), version) && i < |entries|
    requires samples ==> metadata("iris").Some?
    ensures var name := Names(samples, pipelines)[i];
      && Describes(entries[i], name, metadata(name))
      && (samples && i == 0 ==>
            var m := metadata("iris").value;
            && name == "iris"
            && (m.versionName.Some? ==> entries[i].versionName == m.versionName.value + " - " + version)
            && (m.versionName.None? ==> entries[i].versionName == m.name + " - " + version))
      && (!(samples && i == 0) ==> entries[i].versionName == version && name in pipelines)
  {
    if !(samples && i == 0) {
      var j := if samples then i - 1 else i;
      KeptWasAsked(samples, pipelines, j);
      assert Names(samples, pipelines)[i] == Kept(samples, pipelines)[j];
    }
  }
}
