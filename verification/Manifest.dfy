/** From an image reference to the set of valid pipeline names, and what each failure means for deployment. */
module Manifest {
  import opened Prelude
  import opened Text
  import opened LayerScan

  /** A Go map[string]bool; an absent key reads as false. */
  type NameFlags = map<string, bool>

  /** A JSON decoder for the manifest: the entry names in order, or None when the content is not a list of entries. */
  type Decoder = Bytes -> Option<seq<string>>

  predicate Accepts(names: NameFlags, name: string) {
    name in names && names[name]
  }

  // ------------------------------------------------------------------- parsing

  predicate Names(entries: seq<string>, name: string) {
    name != "" && exists e <- entries :: TrimSpace(e) == name
  }

  function Flags(entries: seq<string>): NameFlags {
    if entries == [] then map[]
    else
      var trimmed := TrimSpace(Last(entries));
      if trimmed == "" then Flags(Init(entries)) else Flags(Init(entries))[trimmed := true]
  }

  lemma NamesSnoc(entries: seq<string>, last: string, name: string)
    ensures Names(entries + [last], name) <==> Names(entries, name) || (name != "" && TrimSpace(last) == name)
  {
    assert last in entries + [last];
    assert forall e <- entries :: e in entries + [last];
  }

  /** The flags accept exactly the trimmed, non-empty entry names. */
  lemma {:induction false} FlagsAcceptNames(entries: seq<string>, name: string)
    ensures Accepts(Flags(entries), name) <==> Names(entries, name)
  {
    if entries != [] {
      FlagsAcceptNames(Init(entries), name);
      NamesSnoc(Init(entries), Last(entries), name);
      assert entries == Init(entries) + [Last(entries)];
    }
  }

  function Parse(data: Bytes, decode: Decoder): Option<NameFlags> {
    if data == [] || decode(data).None? then None else Some(Flags(decode(data).value))
  }

  method ParseManagedPipelinesManifest(data: Bytes, decode: Decoder) returns (r: Option<NameFlags>)
    ensures r == Parse(data, decode)
  {
    if |data| == 0 {
      return None;
    }
    var decoded := decode(data);
    if decoded.None? {
      return None;
    }
    var entries := decoded.value;
    var names: NameFlags := map[];
    for i := 0 to |entries|
      invariant names == Flags(entries[..i])
    {
      assert Init(entries[..i + 1]) == entries[..i];
      var trimmed := TrimSpace(entries[i]);
      if trimmed != "" {
        names := names[trimmed := true];
      }
    }
    assert entries[..|entries|] == entries;
    return Some(names);
  }

  // ---------------------------------------------------------------- validation

  /** The CR's names that the manifest does not accept, in CR order. */
  function Missing(cr: seq<string>, names: NameFlags): seq<string> {
    if cr == [] then []
    else Missing(Init(cr), names) + if Accepts(names, Last(cr)) then [] else [Last(cr)]
  }

  lemma {:induction false} MissingNothing(cr: seq<string>, names: NameFlags)
    ensures Missing(cr, names) == [] <==> forall n <- cr :: Accepts(names, n)
  {
    if cr != [] {
      MissingNothing(Init(cr), names);
      assert cr == Init(cr) + [Last(cr)];
    }
  }

  /** The names to report; none means the CR is valid. */
  method ValidateManagedPipelineNames(cr: seq<string>, names: NameFlags) returns (invalid: seq<string>)
    ensures invalid == Missing(cr, names)
  {
    invalid := [];
    for i := 0 to |cr|
      invariant invalid == Missing(cr[..i], names)
    {
      assert Init(cr[..i + 1]) == cr[..i];
      if !Accepts(names, cr[i]) {
        invalid := invalid + [cr[i]];
      }
    }
    assert cr[..|cr|] == cr;
  }

  lemma {:induction false} MissingOfBoth(a: seq<string>, b: seq<string>, names: NameFlags)
    ensures Missing(a + b, names) == Missing(a, names) + Missing(b, names)
  {
    if b == [] {
      assert a + b == a;
    } else {
      MissingOfBoth(a, Init(b), names);
      assert Init(a + b) == a + Init(b);
    }
  }

  /** Wherever a name stands in the CR, it is reported there if it is not accepted, and only then. */
  lemma MissingKeepsOrder(before: seq<string>, name: string, after: seq<string>, names: NameFlags)
    ensures Missing(before + [name] + after, names) ==
            Missing(before, names) + (if Accepts(names, name) then [] else [name]) + Missing(after, names)
  {
    MissingOfBoth(before + [name], after, names);
    assert Init(before + [name]) == before;
  }

  // ------------------------------------------------------------------ fetching

  datatype Remote =
    | PullFailed
    | DigestFailed
    | Pulled(digest: string, layers: Option<seq<Layer>>)

  /** `registry` is None when the reference does not parse; `remote` is what the registry would answer. */
  datatype Request = Request(registry: Option<string>, allowed: seq<string>, remote: Remote)

  datatype Image = Image(digest: string, layers: Option<seq<Layer>>)

  predicate Denied(q: Request) {
    q.registry.Some? && q.allowed != [] && forall a <- q.allowed :: !EqualFold(q.registry.value, a)
  }

  method IsRegistryAllowed(allowed: seq<string>, registry: string) returns (r: bool)
    ensures r <==> exists a <- allowed :: EqualFold(registry, a)
  {
    for i := 0 to |allowed|
      invariant forall a <- allowed[..i] :: !EqualFold(registry, a)
    {
      if EqualFold(registry, allowed[i]) {
        assert allowed[i] in allowed;
        return true;
      }
    }
    assert allowed[..|allowed|] == allowed;
    return false;
  }

  function Resolve(q: Request): Fetch<Image> {
    if q.registry.None? then Permanent(BadReference)
    else if Denied(q) then Permanent(RegistryDenied)
    else match q.remote
      case Pulled(digest, layers) => Fetched(Image(digest, layers))
      case _ => Transient
  }

  method ResolveImageDigest(q: Request) returns (r: Fetch<Image>)
    ensures r == Resolve(q)
  {
    if q.registry.None? {
      return Permanent(BadReference);
    }
    if |q.allowed| > 0 {
      var ok := IsRegistryAllowed(q.allowed, q.registry.value);
      if !ok {
        return Permanent(RegistryDenied);
      }
    }
    match q.remote
    case PullFailed => return Transient;
    case DigestFailed => return Transient;
    case Pulled(digest, layers) => return Fetched(Image(digest, layers));
  }

  function ParseFetched(r: Fetch<Bytes>, decode: Decoder): Fetch<NameFlags> {
    match r
    case Permanent(c) => Permanent(c)
    case Transient => Transient
    case Fetched(data) =>
      match Parse(data, decode)
      case None => Permanent(Unparsable)
      case Some(names) => Fetched(names)
  }

  /** Extract and parse, with no cache involved. */
  function ReadNames(layers: Option<seq<Layer>>, decode: Decoder): Fetch<NameFlags> {
    ParseFetched(ExtractManifest(layers), decode)
  }

  method ExtractAndParse(layers: Option<seq<Layer>>, decode: Decoder) returns (r: Fetch<NameFlags>)
    ensures r == ReadNames(layers, decode)
  {
    var data := ExtractManifestFromImage(layers);
    match data
    case Permanent(c) => return Permanent(c);
    case Transient => return Transient;
    case Fetched(bytes) =>
      var names := ParseManagedPipelinesManifest(bytes, decode);
      return if names.None? then Permanent(Unparsable) else Fetched(names.value);
  }

  function FetchUncached(q: Request, decode: Decoder): Fetch<NameFlags> {
    match Resolve(q)
    case Permanent(c) => Permanent(c)
    case Transient => Transient
    case Fetched(img) => ReadNames(img.layers, decode)
  }

  // ------------------------------------------------------------ classification

  datatype Finding = NothingListed | Valid | Invalid | FetchError

  /** What validation decides: whether to deploy, whether to come back, and what the status says. */
  datatype Verdict = Verdict(proceed: bool, requeue: bool, finding: Finding)

  /** `cr` is the CR's explicit pipeline list, empty when the API server or the list is absent. */
  function Judge(cr: seq<string>, fetched: Fetch<NameFlags>): Verdict {
    if cr == [] then Verdict(true, false, NothingListed)
    else match fetched
      case Permanent(_) => Verdict(false, false, Invalid)
      case Transient => Verdict(true, true, FetchError)
      case Fetched(names) =>
        if Missing(cr, names) != [] then Verdict(false, false, Invalid) else Verdict(true, false, Valid)
  }

  /** The registry list is not empty and holds no spelling of the reference's registry. */
  predicate Excluded(q: Request) {
    q.registry.Some? && |q.allowed| > 0 && forall a <- q.allowed :: ToLower(a) != ToLower(q.registry.value)
  }

  /** The reference is usable and the registry gave up the image's list of layers. */
  predicate LayersKnown(q: Request) {
    q.registry.Some? && !Excluded(q) && q.remote.Pulled? && q.remote.layers.Some?
  }

  /** The content is empty, unparsable, or lacks a name of the CR. */
  predicate BadContent(cr: seq<string>, data: Bytes, decode: Decoder) {
    data == [] || decode(data).None? || exists n <- cr :: !Names(decode(data).value, n)
  }

  /** The newest layer that mentions the file has no entry of its name, or the last one's content is bad. */
  predicate BadLayer(cr: seq<string>, layer: Layer, decode: Decoder)
    requires !Faulty(layer, MANIFEST_PATH)
  {
    || (forall e <- layer.entries :: !Named(e, MANIFEST_PATH))
    || exists i | 0 <= i < |layer.entries| ::
         LastNamed(layer.entries, MANIFEST_PATH, i) && BadContent(cr, Limited(ContentOf(layer.entries[i])), decode)
  }

  function ContentOf(e: Entry): Bytes {
    if e.body.Some? then e.body.value else []
  }

  /** The newest layer that is faulty or mentions the manifest, if there is one, can be read and is bad. */
  predicate BadLayers(cr: seq<string>, layers: seq<Layer>, decode: Decoder) {
    forall d | 0 <= d < |layers| && Decides(layers, MANIFEST_PATH, d) ::
      !Faulty(layers[d], MANIFEST_PATH) && BadLayer(cr, layers[d], decode)
  }

  /** A misconfiguration that no retry can cure. */
  predicate Misconfigured(cr: seq<string>, q: Request, decode: Decoder) {
    || q.registry.None? || Excluded(q)
    || (LayersKnown(q) && BadLayers(cr, q.remote.layers.value, decode))
  }

  /** The pull, the digest or the layer list failed, or the newest layer that matters is faulty. */
  predicate FailsForNow(q: Request) {
    && q.registry.Some? && !Excluded(q)
    && (LayersKnown(q) ==> exists d | 0 <= d < |q.remote.layers.value| ::
          Decides(q.remote.layers.value, MANIFEST_PATH, d) && Faulty(q.remote.layers.value[d], MANIFEST_PATH))
  }

  lemma ExcludedIsDenied(q: Request)
    ensures Excluded(q) <==> Denied(q)
  {
    if q.registry.Some? {
      assert forall a <- q.allowed :: EqualFold(q.registry.value, a) <==> ToLower(a) == ToLower(q.registry.value);
    }
  }

  lemma AcceptsNames(cr: seq<string>, entries: seq<string>)
    ensures Missing(cr, Flags(entries)) == [] <==> forall n <- cr :: Names(entries, n)
  {
    MissingNothing(cr, Flags(entries));
    forall n { FlagsAcceptNames(entries, n); }
  }

  /** What validation makes of content that was read. */
  lemma JudgeContent(cr: seq<string>, data: Bytes, decode: Decoder)
    requires cr != []
    ensures var v := Judge(cr, ParseFetched(Fetched(data), decode));
      (!v.proceed <==> BadContent(cr, data, decode)) && !v.requeue
  {
    if data != [] && decode(data).Some? {
      AcceptsNames(cr, decode(data).value);
    }
  }

  lemma OneDecides(layers: seq<Layer>, d: int, e: int)
    requires Decides(layers, MANIFEST_PATH, d) && Decides(layers, MANIFEST_PATH, e)
    ensures d == e
  {
  }

  lemma OneLastNamed(entries: seq<Entry>, i: int, j: int)
    requires LastNamed(entries, MANIFEST_PATH, i) && LastNamed(entries, MANIFEST_PATH, j)
    ensures i == j
  {
  }

  /** What validation makes of a stack of layers. */
  lemma JudgeLayers(cr: seq<string>, layers: seq<Layer>, decode: Decoder)
    requires cr != []
    ensures var v := Judge(cr, ReadNames(Some(layers), decode));
      && (!v.proceed <==> BadLayers(cr, layers, decode))
      && (v.requeue <==>
          exists d | 0 <= d < |layers| :: Decides(layers, MANIFEST_PATH, d) && Faulty(layers[d], MANIFEST_PATH))
  {
    ScanByEntries(layers, MANIFEST_PATH);
    var d := ScanOfUndecided(layers, MANIFEST_PATH);
    if Decides(layers, MANIFEST_PATH, d) {
      forall e | Decides(layers, MANIFEST_PATH, e) ensures e == d { OneDecides(layers, d, e); }
      var es := if layers[d].Opened? then layers[d].entries else [];
      if !Faulty(layers[d], MANIFEST_PATH) && exists e <- es :: Named(e, MANIFEST_PATH) {
        var i := SomeLastNamed(es, MANIFEST_PATH);
        forall j | LastNamed(es, MANIFEST_PATH, j) ensures j == i { OneLastNamed(es, i, j); }
        assert es[i] in es;
        JudgeContent(cr, Limited(ContentOf(es[i])), decode);
      }
    }
  }

  /** Deployment is blocked, without a retry, exactly for a misconfiguration. */
  lemma BlockedExactlyWhenMisconfigured(cr: seq<string>, q: Request, decode: Decoder)
    requires cr != []
    ensures var v := Judge(cr, FetchUncached(q, decode));
      && (!v.proceed <==> Misconfigured(cr, q, decode))
      && (!v.proceed ==> !v.requeue)
  {
    ExcludedIsDenied(q);
    if LayersKnown(q) {
      JudgeLayers(cr, q.remote.layers.value, decode);
    }
  }

  /** Every other failure to fetch lets deployment proceed and asks for a timed retry. */
  lemma RetriedExactlyWhenTransient(cr: seq<string>, q: Request, decode: Decoder)
    requires cr != []
    ensures Judge(cr, FetchUncached(q, decode)).requeue <==> FailsForNow(q)
  {
    ExcludedIsDenied(q);
    if LayersKnown(q) {
      JudgeLayers(cr, q.remote.layers.value, decode);
    }
  }

  /** What the status says, from the listed names and the fetch. */
  lemma FindingExactly(cr: seq<string>, fetched: Fetch<NameFlags>)
    ensures var f := Judge(cr, fetched).finding;
      && (f == NothingListed <==> cr == [])
      && (f == FetchError <==> cr != [] && fetched.Transient?)
      && (f == Valid <==> cr != [] && fetched.Fetched? && forall n <- cr :: Accepts(fetched.value, n))
      && (f == Invalid <==>
            cr != [] && (fetched.Permanent? || (fetched.Fetched? && exists n <- cr :: !Accepts(fetched.value, n))))
  {
    if fetched.Fetched? {
      MissingNothing(cr, fetched.value);
    }
  }

  /** When a reference resolves, and when it is refused for good; so an empty list admits every registry. */
  lemma ResolvesExactlyWhen(q: Request)
    ensures Resolve(q).Fetched? <==> q.registry.Some? && !Excluded(q) && q.remote.Pulled?
    ensures Resolve(q).Fetched? ==> Resolve(q).value == Image(q.remote.digest, q.remote.layers)
    ensures Resolve(q).Permanent? <==> q.registry.None? || Excluded(q)
    ensures q.registry.Some? && q.allowed == [] ==> !Resolve(q).Permanent?
  {
    ExcludedIsDenied(q);
  }
}
