/** The newest-to-oldest scan of image layers for one file. `OverlayFs` says what the layers stand for. */
module LayerScan {
  import opened Prelude
  import opened Paths

  newtype Byte = x: int | 0 <= x < 256
  type Bytes = seq<Byte>

  const MAX_MANIFEST_SIZE: int := 1048576
  const WHITEOUT_PREFIX: string := ".wh."
  const OPAQUE_MARKER: string := ".wh..wh..opq"
  const MANIFEST_PATH: string := "app" + "/" + "managed-pipelines.json"

  /** What an entry puts into the file system; a link may resolve to a file's content, or to nothing that is a file. */
  datatype Node = File | Directory | Link(content: Option<Bytes>)

  /** A tar header with the content that can be read for it; no body means the read fails. The scan ignores `node`. */
  datatype Entry = Entry(name: string, size: int, body: Option<Bytes>, node: Node)

  /** An uncompressed layer. `clean` is false when the tar stream breaks after `entries`. */
  datatype Layer =
    | Unopenable
    | Opened(entries: seq<Entry>, clean: bool)

  datatype Extract = Data(data: Bytes) | NotFound | Whiteout | ReadError

  /** The outcome of a fetch: permanent errors block deployment, transient ones are retried. */
  datatype Fetch<+T> =
    | Fetched(value: T)
    | Permanent(cause: Cause)
    | Transient

  datatype Cause = BadReference | RegistryDenied | FileMissing | Unparsable

  // ---------------------------------------------------------------- one layer

  function Dir(p: string): string {
    var q := Split(p);
    if |q| == 1 then "." else Join(Init(q))
  }

  function Base(p: string): string {
    Last(Split(p))
  }

  predicate IsWhiteoutFor(entryName: string, targetPath: string) {
    || entryName == Dir(targetPath) + "/" + (WHITEOUT_PREFIX + Base(targetPath))
    || entryName == Dir(targetPath) + "/" + OPAQUE_MARKER
  }

  function ReadBounded(e: Entry): Option<Bytes> {
    if e.size < 0 || e.size > MAX_MANIFEST_SIZE then None
    else match e.body
      case None => None
      case Some(b) => Some(if |b| <= MAX_MANIFEST_SIZE then b else b[..MAX_MANIFEST_SIZE])
  }

  predicate IsTarget(e: Entry, target: string) {
    e.name == target && !IsWhiteoutFor(e.name, target)
  }

  /** The content that the last entry for the target leaves behind, if there is one. */
  function LastData(entries: seq<Entry>, target: string): (r: Option<Bytes>)
    ensures r.Some? ==> |r.value| <= MAX_MANIFEST_SIZE
  {
    if entries == [] then None
    else if IsTarget(Last(entries), target) && ReadBounded(Last(entries)).Some?
    then ReadBounded(Last(entries))
    else LastData(Init(entries), target)
  }

  predicate HasWhiteout(entries: seq<Entry>, target: string) {
    exists e <- entries :: IsWhiteoutFor(e.name, target)
  }

  /** The target is in the stream but one of its entries is oversized or unreadable. */
  predicate HasBadTarget(entries: seq<Entry>, target: string) {
    exists e <- entries :: IsTarget(e, target) && ReadBounded(e).None?
  }

  function ExtractSpec(layer: Layer, target: string): (r: Extract)
    requires layer.Opened?
  {
    if HasBadTarget(layer.entries, target) || !layer.clean then ReadError
    else match LastData(layer.entries, target)
      case Some(d) => Data(d)
      case None => if HasWhiteout(layer.entries, target) then Whiteout else NotFound
  }

  method ExtractFileFromTar(layer: Layer, targetPath: string) returns (r: Extract)
    requires layer.Opened?
    ensures r == ExtractSpec(layer, targetPath)
  {
    var foundData: Option<Bytes> := None;
    var foundWhiteout := false;
    var es := layer.entries;
    var i := 0;
    while i < |es|
      invariant 0 <= i <= |es|
      invariant !HasBadTarget(es[..i], targetPath)
      invariant foundWhiteout == HasWhiteout(es[..i], targetPath)
      invariant foundData == LastData(es[..i], targetPath)
    {
      var hdr := es[i];
      assert es[..i + 1] == es[..i] + [hdr];
      assert Init(es[..i + 1]) == es[..i];
      i := i + 1;
      if IsWhiteoutFor(hdr.name, targetPath) {
        foundWhiteout := true;
        assert hdr in es[..i];
        continue;
      }
      if hdr.name == targetPath {
        var data := ReadBounded(hdr);
        if data.None? {
          assert hdr in es && IsTarget(hdr, targetPath);
          return ReadError;
        }
        foundData := data;
      }
    }
    assert es[..i] == es;
    if !layer.clean {
      return ReadError;
    }
    if foundData.Some? {
      return Data(foundData.value);
    }
    if foundWhiteout {
      return Whiteout;
    }
    return NotFound;
  }

  // --------------------------------------------------------------- all layers

  /** What one layer says about the target; an unopenable layer counts as a read error. */
  function Look(layer: Layer, target: string): Extract {
    if layer.Unopenable? then ReadError else ExtractSpec(layer, target)
  }

  function Looks(layers: seq<Layer>, target: string): (xs: seq<Extract>)
    ensures |xs| == |layers|
    ensures forall i | 0 <= i < |layers| :: xs[i] == Look(layers[i], target)
  {
    seq(|layers|, i requires 0 <= i < |layers| => Look(layers[i], target))
  }

  function Outcome(x: Extract): Fetch<Bytes> {
    match x
    case Data(d) => Fetched(d)
    case NotFound => Permanent(FileMissing)
    case Whiteout => Permanent(FileMissing)
    case ReadError => Transient
  }

  /** The newest layer that is not silent decides. */
  function Newest(xs: seq<Extract>): Fetch<Bytes> {
    if xs == [] then Permanent(FileMissing)
    else if Last(xs).NotFound? then Newest(Init(xs))
    else Outcome(Last(xs))
  }

  function Scan(layers: seq<Layer>, target: string): Fetch<Bytes> {
    Newest(Looks(layers, target))
  }

  /** `layers` is None when the layer list itself cannot be obtained. */
  function ExtractManifest(layers: Option<seq<Layer>>): Fetch<Bytes> {
    if layers.None? then Transient else Scan(layers.value, MANIFEST_PATH)
  }

  lemma NewestOfPrefix(xs: seq<Extract>, i: nat)
    requires i < |xs|
    ensures Newest(xs[..i + 1]) == if xs[i].NotFound? then Newest(xs[..i]) else Outcome(xs[i])
  {
    assert Init(xs[..i + 1]) == xs[..i];
  }

  method ExtractManifestFromImage(layers: Option<seq<Layer>>) returns (r: Fetch<Bytes>)
    ensures r == ExtractManifest(layers)
  {
    if layers.None? {
      return Transient;
    }
    var ls := layers.value;
    ghost var xs := Looks(ls, MANIFEST_PATH);
    assert xs[..|ls|] == xs;
    var i := |ls|;
    while i > 0
      invariant 0 <= i <= |ls|
      invariant Newest(xs) == Newest(xs[..i])
    {
      i := i - 1;
      NewestOfPrefix(xs, i);
      var x := ReadError;
      if !ls[i].Unopenable? {
        x := ExtractFileFromTar(ls[i], MANIFEST_PATH);
      }
      if !x.NotFound? {
        return Outcome(x);
      }
    }
    return Permanent(FileMissing);
  }

  // ------------------------------------------------------ no stale fall-through

  /** Position `d` is the newest one that is not silent about the target. */
  predicate Deciding(xs: seq<Extract>, d: int) {
    && 0 <= d < |xs|
    && !xs[d].NotFound?
    && (forall i | d < i < |xs| :: xs[i].NotFound?)
  }

  predicate Silent(xs: seq<Extract>) {
    forall i | 0 <= i < |xs| :: xs[i].NotFound?
  }

  lemma {:induction false} NewestIsDeciding(xs: seq<Extract>) returns (d: int)
    ensures Silent(xs) ==> Newest(xs) == Permanent(FileMissing)
    ensures !Silent(xs) ==> Deciding(xs, d) && Newest(xs) == Outcome(xs[d])
  {
    d := |xs| - 1;
    if xs != [] && Last(xs).NotFound? {
      d := NewestIsDeciding(Init(xs));
    }
  }

  /** The newest layer that says anything fixes the result, faults included; silence everywhere is "missing". */
  lemma ScanFollowsDecidingLayer(layers: seq<Layer>, target: string)
    ensures var xs := Looks(layers, target);
      if Silent(xs) then Scan(layers, target) == Permanent(FileMissing)
      else exists d :: Deciding(xs, d) && Scan(layers, target) == Outcome(Look(layers[d], target))
  {
    var d := NewestIsDeciding(Looks(layers, target));
  }

  /**
   A fault at or above the deciding position is always reported, a fault below it never is, and
   whatever is returned fits the size limit.
   */
  lemma FaultsAreNeverMasked(layers: seq<Layer>, target: string)
    ensures var xs := Looks(layers, target);
      && (Scan(layers, target).Transient? <==> exists d :: Deciding(xs, d) && xs[d].ReadError?)
      && (Scan(layers, target).Fetched? ==> |Scan(layers, target).value| <= MAX_MANIFEST_SIZE)
  {
    var d := NewestIsDeciding(Looks(layers, target));
  }

  /** Layers below the deciding one can be replaced, broken or dropped without any effect. */
  lemma LowerLayersAreIrrelevant(lower: seq<Layer>, lower': seq<Layer>, upper: seq<Layer>, target: string)
    requires !Silent(Looks(upper, target))
    ensures Scan(lower + upper, target) == Scan(lower' + upper, target)
  {
    assert Looks(lower + upper, target) == Looks(lower, target) + Looks(upper, target);
    assert Looks(lower' + upper, target) == Looks(lower', target) + Looks(upper, target);
    NewestIgnoresLower(Looks(lower, target), Looks(upper, target));
    NewestIgnoresLower(Looks(lower', target), Looks(upper, target));
  }

  lemma {:induction false} NewestIgnoresLower(lower: seq<Extract>, upper: seq<Extract>)
    requires !Silent(upper)
    ensures Newest(lower + upper) == Newest(upper)
  {
    assert Init(lower + upper) == lower + Init(upper);
    if Last(upper).NotFound? {
      NewestIgnoresLower(lower, Init(upper));
    }
  }

  // ------------------------------------------------------ the scan, entry by entry

  /** The entry is read as the target. */
  predicate Named(e: Entry, target: string) {
    e.name == target && !IsWhiteoutFor(e.name, target)
  }

  /** The layer cannot be read as far as the target is concerned. */
  predicate Faulty(layer: Layer, target: string) {
    || layer.Unopenable?
    || !layer.clean
    || exists e <- layer.entries :: Named(e, target) && (e.size < 0 || e.size > 1048576 || e.body.None?)
  }

  /** The layer holds the target or one of its markers. */
  predicate Mentions(layer: Layer, target: string) {
    layer.Opened? && exists e <- layer.entries :: Named(e, target) || IsWhiteoutFor(e.name, target)
  }

  /** The newest layer that is faulty or has something to say. */
  predicate Decides(layers: seq<Layer>, target: string, d: int) {
    && 0 <= d < |layers| && (Faulty(layers[d], target) || Mentions(layers[d], target))
    && forall i | d < i < |layers| :: !Faulty(layers[i], target) && !Mentions(layers[i], target)
  }

  predicate LastNamed(entries: seq<Entry>, target: string, i: int) {
    0 <= i < |entries| && Named(entries[i], target) && forall j | i < j < |entries| :: !Named(entries[j], target)
  }

  /** At most one mebibyte is read. */
  function Limited(body: Bytes): Bytes {
    if |body| <= 1048576 then body else body[..1048576]
  }

  lemma {:induction false} LastDataIsLastNamed(entries: seq<Entry>, target: string, i: nat)
    requires !Faulty(Opened(entries, true), target) && LastNamed(entries, target, i)
    ensures entries[i].body.Some? && LastData(entries, target) == Some(Limited(entries[i].body.value))
  {
    assert entries[i] in entries && forall e <- Init(entries) :: e in entries;
    if i < |entries| - 1 {
      LastDataIsLastNamed(Init(entries), target, i);
    }
  }

  lemma {:induction false} NoneNamedMeansNoData(entries: seq<Entry>, target: string)
    requires forall e <- entries :: !Named(e, target)
    ensures LastData(entries, target) == None
  {
    if entries != [] {
      assert Last(entries) in entries && forall e <- Init(entries) :: e in entries;
      NoneNamedMeansNoData(Init(entries), target);
    }
  }

  lemma FaultyMeansReadError(layer: Layer, target: string)
    ensures Look(layer, target) == ReadError <==> Faulty(layer, target)
  {
    if layer.Opened? {
      assert forall e <- layer.entries ::
        IsTarget(e, target) && ReadBounded(e).None? <==>
        Named(e, target) && (e.size < 0 || e.size > 1048576 || e.body.None?);
    }
  }

  lemma {:induction false} SomeLastNamed(entries: seq<Entry>, target: string) returns (i: int)
    requires exists e <- entries :: Named(e, target)
    ensures LastNamed(entries, target, i)
  {
    i := |entries| - 1;
    if !Named(Last(entries), target) {
      var e :| e in entries && Named(e, target);
      assert e in Init(entries);
      i := SomeLastNamed(Init(entries), target);
    }
  }

  /** What the scan makes of a layer that is not faulty, from its entries alone. */
  lemma LookByEntries(layer: Layer, target: string)
    requires !Faulty(layer, target)
    ensures Look(layer, target) == NotFound <==> !Mentions(layer, target)
    ensures Look(layer, target) == Whiteout <==>
      Mentions(layer, target) && forall e <- layer.entries :: !Named(e, target)
    ensures forall i | LastNamed(layer.entries, target, i) ::
      layer.entries[i].body.Some? && Look(layer, target) == Data(Limited(layer.entries[i].body.value))
  {
    var es := layer.entries;
    FaultyMeansReadError(layer, target);
    forall i | LastNamed(es, target, i)
      ensures es[i].body.Some? && LastData(es, target) == Some(Limited(es[i].body.value))
    {
      LastDataIsLastNamed(es, target, i);
    }
    if exists e <- es :: Named(e, target) {
      var i := SomeLastNamed(es, target);
      assert es[i] in es;
    } else {
      NoneNamedMeansNoData(es, target);
    }
  }

  lemma {:induction false} ScanOfDecided(layers: seq<Layer>, target: string, d: int)
    requires Decides(layers, target, d)
    ensures Scan(layers, target) == Outcome(Look(layers[d], target))
  {
    var xs := Looks(layers, target);
    if d == |layers| - 1 {
      FaultyMeansReadError(layers[d], target);
      if !Faulty(layers[d], target) {
        LookByEntries(layers[d], target);
      }
    } else {
      FaultyMeansReadError(Last(layers), target);
      LookByEntries(Last(layers), target);
      ScanOfDecided(Init(layers), target, d);
      assert Looks(Init(layers), target) == Init(xs);
    }
  }

  lemma {:induction false} ScanOfUndecided(layers: seq<Layer>, target: string) returns (d: int)
    ensures Decides(layers, target, d) ||
      ((forall l <- layers :: !Faulty(l, target) && !Mentions(l, target))
       && Scan(layers, target) == Permanent(FileMissing))
  {
    d := |layers| - 1;
    if layers != [] && !Faulty(Last(layers), target) && !Mentions(Last(layers), target) {
      d := ScanOfUndecided(Init(layers), target);
      LookByEntries(Last(layers), target);
      FaultyMeansReadError(Last(layers), target);
      assert Looks(Init(layers), target) == Init(Looks(layers, target));
      assert layers == Init(layers) + [Last(layers)];
    }
  }

  /**
   The scan in terms of layers and entries: an error exactly when the newest layer that is faulty or mentions
   the target is faulty; otherwise the content of that layer's last entry of the name; missing if there is none.
   */
  lemma ScanByEntries(layers: seq<Layer>, target: string)
    ensures Scan(layers, target).Transient? <==>
      exists d | 0 <= d < |layers| :: Decides(layers, target, d) && Faulty(layers[d], target)
    ensures forall d, i |
      Decides(layers, target, d) && !Faulty(layers[d], target) && LastNamed(layers[d].entries, target, i) ::
      layers[d].entries[i].body.Some? && Scan(layers, target) == Fetched(Limited(layers[d].entries[i].body.value))
    ensures Scan(layers, target).Permanent? <==>
      forall d | 0 <= d < |layers| && Decides(layers, target, d) ::
        !Faulty(layers[d], target) && forall e <- layers[d].entries :: !Named(e, target)
  {
    var d := ScanOfUndecided(layers, target);
    forall e | Decides(layers, target, e) ensures Scan(layers, target) == Outcome(Look(layers[e], target)) {
      ScanOfDecided(layers, target, e);
      FaultyMeansReadError(layers[e], target);
    }
    forall e | Decides(layers, target, e) ensures Faulty(layers[e], target) <==> Look(layers[e], target) == ReadError {
      FaultyMeansReadError(layers[e], target);
    }
    forall e | Decides(layers, target, e) && !Faulty(layers[e], target)
      ensures Look(layers[e], target) == Whiteout <==> forall x <- layers[e].entries :: !Named(x, target)
      ensures Look(layers[e], target) != NotFound
      ensures forall i | LastNamed(layers[e].entries, target, i) ::
        layers[e].entries[i].body.Some? && Look(layers[e], target) == Data(Limited(layers[e].entries[i].body.value))
    {
      LookByEntries(layers[e], target);
    }
  }
}
