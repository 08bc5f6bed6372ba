/**
 The file system that image layers stand for, built bottom-up, and when the newest-to-oldest scan of
 `LayerScan` gives what it holds.
 */
module OverlayFs {
  import opened Prelude
  import opened Paths
  import opened LayerScan

  // ------------------------------------------------------------ overlay semantics

  /** The content of every file. */
  type Tree = map<Path, Bytes>

  /** `a` is a strict ancestor of `p`. */
  predicate Above(a: Path, p: Path) {
    |a| < |p| && a <= p
  }

  /** The place an entry is about, however its name is spelled. */
  function PathOf(e: Entry): Path {
    Clean(Split(e.name))
  }

  predicate IsMarker(e: Entry) {
    PathOf(e) != [] && WHITEOUT_PREFIX <= Last(PathOf(e))
  }

  /**
   An opaque marker removes everything under its directory, another marker the path it names and everything under
   it.
   */
  predicate WhitesOut(e: Entry, p: Path) {
    IsMarker(e) &&
    var dir, name := Init(PathOf(e)), Last(PathOf(e));
    if name == OPAQUE_MARKER then Above(dir, p) else dir + [name[|WHITEOUT_PREFIX|..]] <= p
  }

  /** A directory replaces a file of its name; anything else replaces whatever is at its path or under it. */
  predicate Replaces(e: Entry, p: Path) {
    !IsMarker(e) && PathOf(e) != [] && if e.node.Directory? then PathOf(e) == p else PathOf(e) <= p
  }

  /** The file content that an entry leaves at its path. */
  function Denotes(e: Entry): Option<Bytes> {
    match e.node
    case File => e.body
    case Directory => None
    case Link(content) => content
  }

  predicate WhitedOut(entries: seq<Entry>, p: Path) {
    exists e <- entries :: WhitesOut(e, p)
  }

  function AddEntry(t: Tree, e: Entry): Tree {
    var kept: Tree := map p | p in t && !Replaces(e, p) :: t[p];
    if !IsMarker(e) && PathOf(e) != [] && Denotes(e).Some? then kept[PathOf(e) := Denotes(e).value] else kept
  }

  function AddEntries(t: Tree, entries: seq<Entry>): Tree {
    if entries == [] then t else AddEntry(AddEntries(t, Init(entries)), Last(entries))
  }

  /** The markers of a layer apply to the layers below only; its other entries take effect one after the other. */
  function ApplyLayer(t: Tree, entries: seq<Entry>): Tree {
    var kept: Tree := map p | p in t && !WhitedOut(entries, p) :: t[p];
    AddEntries(kept, entries)
  }

  function Overlay(layers: seq<Layer>): Tree {
    if layers == [] then map[]
    else if Last(layers).Unopenable? then Overlay(Init(layers))
    else ApplyLayer(Overlay(Init(layers)), Last(layers).entries)
  }

  function At(t: Tree, q: Path): Option<Bytes> {
    if q in t then Some(t[q]) else None
  }

  // ------------------------------------------------------- one path of the overlay

  /** What a layer says about one path. */
  datatype Say = Quiet | Gone | Holds(content: Bytes)

  /** What the last entry that replaces the path leaves there. */
  function LastSay(entries: seq<Entry>, q: Path): Say {
    if entries == [] then Quiet
    else
      var e := Last(entries);
      if !Replaces(e, q) then LastSay(Init(entries), q)
      else if PathOf(e) == q && Denotes(e).Some? then Holds(Denotes(e).value)
      else Gone
  }

  function SayOf(layer: Layer, q: Path): Say {
    if layer.Unopenable? then Quiet
    else
      var say := LastSay(layer.entries, q);
      if say.Quiet? && WhitedOut(layer.entries, q) then Gone else say
  }

  function Says(layers: seq<Layer>, q: Path): (ys: seq<Say>)
    ensures |ys| == |layers|
    ensures forall i | 0 <= i < |layers| :: ys[i] == SayOf(layers[i], q)
  {
    seq(|layers|, i requires 0 <= i < |layers| => SayOf(layers[i], q))
  }

  /** The newest layer that says anything is right. */
  function Shown(ys: seq<Say>): Option<Bytes> {
    if ys == [] then None
    else match Last(ys)
      case Quiet => Shown(Init(ys))
      case Gone => None
      case Holds(content) => Some(content)
  }

  lemma {:induction false} AddEntriesAt(t: Tree, entries: seq<Entry>, q: Path)
    requires q != []
    ensures At(AddEntries(t, entries), q) ==
            match LastSay(entries, q) { case Quiet => At(t, q) case Gone => None case Holds(c) => Some(c) }
  {
    if entries != [] {
      AddEntriesAt(t, Init(entries), q);
    }
  }

  /** The whole overlay, looked up at one path, shows what the newest layer says that says anything. */
  lemma {:induction false} OverlayAt(layers: seq<Layer>, q: Path)
    requires q != []
    ensures At(Overlay(layers), q) == Shown(Says(layers, q))
  {
    if layers != [] {
      var top, rest := Last(layers), Init(layers);
      OverlayAt(rest, q);
      assert Says(rest, q) == Init(Says(layers, q));
      if top.Opened? {
        var below := Overlay(rest);
        var kept: Tree := map p | p in below && !WhitedOut(top.entries, p) :: below[p];
        AddEntriesAt(kept, top.entries, q);
      }
    }
  }

  // ----------------------------------------------------------- the scan's own view

  /** A file path with a parent directory, ordinary components and no name reserved for markers. */
  predicate ValidTarget(q: Path) {
    && |q| >= 2 && SlashFree(q)
    && (forall c <- q :: Ordinary(c))
    && !(WHITEOUT_PREFIX <= Last(q))
  }

  /** The layer opens, its stream ends normally, and the entries the scan reads are whole and fit the limit. */
  predicate Readable(layer: Layer, target: string) {
    && layer.Opened? && layer.clean
    && forall e <- layer.entries | e.name == target ::
         0 <= e.size <= MAX_MANIFEST_SIZE && e.body.Some? && |e.body.value| == e.size
  }

  lemma DirAndBase(q: Path)
    requires |q| >= 2 && SlashFree(q)
    ensures Dir(Join(q)) == Join(Init(q)) && Base(Join(q)) == Last(q)
    ensures SlashFree(Init(q)) && '/' !in Last(q)
  {
    SplitJoin(q);
    assert SlashFree(Init(q)) by { assert forall c <- Init(q) :: c in q; }
    assert Last(q) in q;
  }

  lemma WhiteoutNames(name: string, q: Path)
    requires ValidTarget(q)
    ensures IsWhiteoutFor(name, Join(q)) <==>
            || Split(name) == Init(q) + [WHITEOUT_PREFIX + Last(q)]
            || Split(name) == Init(q) + [OPAQUE_MARKER]
    ensures name == Join(q) <==> Split(name) == q
    ensures IsWhiteoutFor(name, Join(q)) ==> name != Join(q)
  {
    DirAndBase(q);
    JoinSplit(name);
    SplitJoin(q);
    NameInDirectory(name, Init(q), WHITEOUT_PREFIX + Last(q));
    NameInDirectory(name, Init(q), OPAQUE_MARKER);
  }

  lemma {:induction false} MarkerIsReserved(q: Path, s: Path)
    requires |q| >= 2 && |s| > 0
    requires s == Init(q) + [WHITEOUT_PREFIX + Last(q)] || s == Init(q) + [OPAQUE_MARKER]
    ensures Init(s) == Init(q) && WHITEOUT_PREFIX <= Last(s)
    ensures Last(s) == OPAQUE_MARKER ==> Above(Init(s), q)
    ensures Last(s) != OPAQUE_MARKER ==> Init(s) + [Last(s)[|WHITEOUT_PREFIX|..]] == q
  {
    assert q == Init(q) + [Last(q)];
    if Last(s) != OPAQUE_MARKER {
      assert Last(s)[|WHITEOUT_PREFIX|..] == Last(q);
    }
  }

  /** A recognised marker, whose name is spelled plainly, is about the path it seems to be about. */
  lemma MarkerPath(e: Entry, q: Path)
    requires ValidTarget(q) && IsWhiteoutFor(e.name, Join(q))
    ensures PathOf(e) == Split(e.name)
  {
    WhiteoutNames(e.name, q);
    var s := Split(e.name);
    forall c | c in s ensures Ordinary(c) {
      assert c in Init(s) || c == Last(s);
      assert c in Init(q) ==> c in q;
    }
    CleanKeepsOrdinary(s);
  }

  /** Every marker that the scan recognises does white the target out. */
  lemma RecognisedHides(e: Entry, q: Path)
    requires ValidTarget(q) && IsWhiteoutFor(e.name, Join(q))
    ensures WhitesOut(e, q)
  {
    WhiteoutNames(e.name, q);
    MarkerPath(e, q);
    MarkerIsReserved(q, Split(e.name));
  }

  lemma TargetPath(e: Entry, q: Path)
    requires ValidTarget(q) && e.name == Join(q)
    ensures PathOf(e) == q && !IsMarker(e) && Replaces(e, q) && !IsWhiteoutFor(e.name, Join(q))
  {
    WhiteoutNames(e.name, q);
    CleanKeepsOrdinary(q);
  }

  lemma {:induction false} TargetIsSaid(entries: seq<Entry>, e: Entry, q: Path)
    requires e in entries && Replaces(e, q)
    ensures !LastSay(entries, q).Quiet?
  {
    if e != Last(entries) {
      assert e in Init(entries);
      TargetIsSaid(Init(entries), e, q);
    }
  }

  lemma {:induction false} DataHasEntry(entries: seq<Entry>, target: string) returns (e: Entry)
    requires LastData(entries, target).Some?
    ensures e in entries && IsTarget(e, target)
  {
    e := Last(entries);
    if !(IsTarget(e, target) && ReadBounded(e).Some?) {
      e := DataHasEntry(Init(entries), target);
    }
  }

  lemma ReadableLook(layer: Layer, q: Path)
    requires ValidTarget(q) && Readable(layer, Join(q))
    ensures Look(layer, Join(q)) ==
            match LastData(layer.entries, Join(q))
            case Some(d) => Data(d)
            case None => if HasWhiteout(layer.entries, Join(q)) then Whiteout else NotFound
  {
  }

  // ------------------------------------------------------------------ when they agree

  function LookupResult(v: Option<Bytes>): Fetch<Bytes> {
    match v case Some(d) => Fetched(d) case None => Permanent(FileMissing)
  }

  /** The entry takes effect at the path: it replaces what is there, or removes it from the layers below. */
  predicate Touches(e: Entry, q: Path) {
    Replaces(e, q) || WhitesOut(e, q)
  }

  /** The scan sees the entry: it has the target's name as it is written, or that of one of its two markers. */
  predicate Recognised(e: Entry, q: Path)
    requires |q| > 0
  {
    e.name == Join(q) || IsWhiteoutFor(e.name, Join(q))
  }

  predicate TouchedBy(layer: Layer, q: Path) {
    layer.Opened? && exists e <- layer.entries :: Touches(e, q)
  }

  predicate RecognisedIn(layer: Layer, q: Path)
    requires |q| > 0
  {
    layer.Opened? && exists e <- layer.entries :: Recognised(e, q)
  }

  /** The layer changes the target only by entries that the scan does not see. */
  predicate Overlooked(layer: Layer, q: Path)
    requires |q| > 0
  {
    TouchedBy(layer, q) && !RecognisedIn(layer, q)
  }

  /**
   The scan sees entries of the layer but not what they add up to: the last entry that replaces the target does
   not leave the content that stands under the target's name, or leaves one although only markers are seen.
   */
  predicate Distorted(layer: Layer, q: Path)
    requires |q| > 0
  {
    RecognisedIn(layer, q) &&
    match LastData(layer.entries, Join(q))
    case Some(d) => LastSay(layer.entries, q) != Holds(d)
    case None => LastSay(layer.entries, q).Holds?
  }

  /** What stands under the target's own name in the newest layer with an entry that the scan sees. */
  function Recorded(layers: seq<Layer>, q: Path): Option<Bytes>
    requires |q| > 0
  {
    if layers == [] then None
    else if RecognisedIn(Last(layers), q) then LastData(Last(layers).entries, Join(q))
    else Recorded(Init(layers), q)
  }

  /** What the layer leaves at the target, if it touches it. */
  function Left(layer: Layer, q: Path): Option<Bytes> {
    if layer.Opened? && LastSay(layer.entries, q).Holds? then Some(LastSay(layer.entries, q).content) else None
  }

  /** The newest layer that touches the target. */
  predicate NewestTouching(layers: seq<Layer>, q: Path, m: int) {
    0 <= m < |layers| && TouchedBy(layers[m], q) && forall i | m < i < |layers| :: !TouchedBy(layers[i], q)
  }

  lemma {:induction false} SaidHasEntry(entries: seq<Entry>, q: Path) returns (e: Entry)
    requires !LastSay(entries, q).Quiet?
    ensures e in entries && Replaces(e, q)
  {
    e := Last(entries);
    if !Replaces(e, q) {
      e := SaidHasEntry(Init(entries), q);
    }
  }

  /** A layer says something about a path exactly when one of its entries touches it. */
  lemma SaysExactlyWhenTouched(layer: Layer, q: Path)
    ensures SayOf(layer, q) != Quiet <==> TouchedBy(layer, q)
    ensures SayOf(layer, q).Holds? <==> Left(layer, q).Some?
    ensures SayOf(layer, q).Holds? ==> Some(SayOf(layer, q).content) == Left(layer, q)
  {
    if layer.Opened? {
      if !LastSay(layer.entries, q).Quiet? {
        var e := SaidHasEntry(layer.entries, q);
      }
      if e :| e in layer.entries && Replaces(e, q) {
        TargetIsSaid(layer.entries, e, q);
      }
    }
  }

  /** The scan sees nothing in a readable layer exactly when it recognises none of its entries. */
  lemma SeesExactlyWhenRecognised(layer: Layer, q: Path)
    requires ValidTarget(q) && Readable(layer, Join(q))
    ensures Look(layer, Join(q)) ==
            if !RecognisedIn(layer, q) then NotFound
            else match LastData(layer.entries, Join(q)) case Some(d) => Data(d) case None => Whiteout
  {
    ReadableLook(layer, q);
    if LastData(layer.entries, Join(q)).Some? {
      var e := DataHasEntry(layer.entries, Join(q));
    }
    if e :| e in layer.entries && e.name == Join(q) {
      TargetPath(e, q);
      NamedHasData(layer.entries, e, q);
    }
  }

  lemma {:induction false} NamedHasData(entries: seq<Entry>, e: Entry, q: Path)
    requires ValidTarget(q) && Readable(Opened(entries, true), Join(q))
    requires e in entries && IsTarget(e, Join(q))
    ensures LastData(entries, Join(q)).Some?
  {
    var last := Last(entries);
    assert last in entries;
    if !(IsTarget(last, Join(q)) && ReadBounded(last).Some?) {
      assert e in Init(entries);
      assert forall x <- Init(entries) :: x in entries;
      NamedHasData(Init(entries), e, q);
    }
  }

  /** Every entry that the scan recognises touches the target. */
  lemma RecognisedTouches(layer: Layer, q: Path)
    requires ValidTarget(q) && RecognisedIn(layer, q)
    ensures TouchedBy(layer, q)
  {
    var e :| e in layer.entries && Recognised(e, q);
    if e.name == Join(q) {
      TargetPath(e, q);
    } else {
      RecognisedHides(e, q);
    }
  }

  lemma TopRecords(layers: seq<Layer>, q: Path)
    requires |q| > 0 && layers != []
    ensures Recorded(layers, q) ==
            if RecognisedIn(Last(layers), q) then LastData(Last(layers).entries, Join(q)) else Recorded(Init(layers), q)
  {
  }

  lemma TopScans(layers: seq<Layer>, target: string)
    requires layers != []
    ensures Scan(layers, target) ==
            if Look(Last(layers), target).NotFound? then Scan(Init(layers), target)
            else Outcome(Look(Last(layers), target))
  {
    assert Looks(Init(layers), target) == Init(Looks(layers, target));
  }

  /** Over readable layers the scan gives what the entries it recognises record. */
  lemma {:induction false} ScanIsRecorded(layers: seq<Layer>, q: Path)
    requires ValidTarget(q) && forall l <- layers :: Readable(l, Join(q))
    ensures Scan(layers, Join(q)) == LookupResult(Recorded(layers, q))
  {
    if layers != [] {
      var top, rest := Last(layers), Init(layers);
      assert top in layers && forall l <- rest :: l in layers;
      ScanIsRecorded(rest, q);
      SeesExactlyWhenRecognised(top, q);
      TopScans(layers, Join(q));
      TopRecords(layers, q);
    }
  }

  predicate Untouched(layers: seq<Layer>, q: Path, m: nat) {
    m <= |layers| && forall i | m <= i < |layers| :: !TouchedBy(layers[i], q)
  }

  /** Layers above the newest one that touches the target do not change what is recorded. */
  lemma {:induction false} RecordedBelow(layers: seq<Layer>, q: Path, m: nat)
    requires ValidTarget(q) && Untouched(layers, q, m)
    ensures Recorded(layers, q) == Recorded(layers[..m], q)
  {
    if m == |layers| {
      assert layers[..m] == layers;
    } else {
      RecordedBelow(Init(layers), q, m);
      assert Init(layers)[..m] == layers[..m];
      if RecognisedIn(Last(layers), q) {
        RecognisedTouches(Last(layers), q);
      }
    }
  }

  /** Nor do they change what is shown. */
  lemma {:induction false} ShownBelow(layers: seq<Layer>, q: Path, m: nat)
    requires Untouched(layers, q, m)
    ensures Shown(Says(layers, q)) == Shown(Says(layers[..m], q))
  {
    if m == |layers| {
      assert layers[..m] == layers;
    } else {
      ShownBelow(Init(layers), q, m);
      assert Init(layers)[..m] == layers[..m] && Says(Init(layers), q) == Init(Says(layers, q));
      SaysExactlyWhenTouched(Last(layers), q);
    }
  }

  lemma TopShows(layers: seq<Layer>, q: Path)
    requires layers != [] && TouchedBy(Last(layers), q)
    ensures Shown(Says(layers, q)) == Left(Last(layers), q)
  {
    SaysExactlyWhenTouched(Last(layers), q);
  }

  /** So both come down to the newest layer that touches the target, and to those below it if it is overlooked. */
  lemma NewestTouchingDecides(layers: seq<Layer>, q: Path, m: nat)
    requires ValidTarget(q) && NewestTouching(layers, q, m)
    ensures Recorded(layers, q) ==
            if RecognisedIn(layers[m], q) then LastData(layers[m].entries, Join(q)) else Recorded(layers[..m], q)
    ensures At(Overlay(layers), q) == Left(layers[m], q)
  {
    var upTo := layers[..m + 1];
    assert Init(upTo) == layers[..m] && Last(upTo) == layers[m];
    assert Untouched(layers, q, m + 1);
    RecordedBelow(layers, q, m + 1);
    TopRecords(upTo, q);
    OverlayAt(layers, q);
    ShownBelow(layers, q, m + 1);
    TopShows(upTo, q);
  }

  /** If nothing in any layer touches the target, scan and overlay agree that it is missing. */
  lemma UntouchedStacksAgree(layers: seq<Layer>, q: Path)
    requires ValidTarget(q) && forall l <- layers :: Readable(l, Join(q)) && !TouchedBy(l, q)
    ensures Scan(layers, Join(q)) == Permanent(FileMissing) && At(Overlay(layers), q) == None
  {
    ScanIsRecorded(layers, q);
    OverlayAt(layers, q);
    RecordedBelow(layers, q, 0);
    ShownBelow(layers, q, 0);
    assert layers[..0] == [];
  }

  /**
   Over readable layers everything depends on the newest one that touches the target. The newest-first scan
   gives what applying all layers and looking the file up gives exactly when that layer is not distorted and,
   if it is overlooked, happens to leave what the layers below it record.
   */
  lemma ScanRefinesOverlay(layers: seq<Layer>, q: Path, m: nat)
    requires ValidTarget(q) && (forall l <- layers :: Readable(l, Join(q))) && NewestTouching(layers, q, m)
    ensures Scan(layers, Join(q)) == LookupResult(At(Overlay(layers), q)) <==>
      && !Distorted(layers[m], q)
      && (Overlooked(layers[m], q) ==> Recorded(layers[..m], q) == Left(layers[m], q))
  {
    ScanIsRecorded(layers, q);
    NewestTouchingDecides(layers, q, m);
  }

  /** There is such a layer unless none touches the target. */
  lemma {:induction false} NewestTouchingExists(layers: seq<Layer>, q: Path) returns (m: int)
    ensures (forall l <- layers :: !TouchedBy(l, q)) || NewestTouching(layers, q, m)
  {
    m := |layers| - 1;
    if layers != [] && !TouchedBy(Last(layers), q) {
      m := NewestTouchingExists(Init(layers), q);
      assert layers == Init(layers) + [Last(layers)];
    }
  }

  /** Whatever touches the target in this layer is a file under the target's own spelling or a recognised marker. */
  predicate Plain(layer: Layer, q: Path)
    requires |q| > 0
  {
    layer.Opened? ==> forall e <- layer.entries ::
      && (Replaces(e, q) ==> e.name == Join(q) && e.node.File?)
      && (WhitesOut(e, q) ==> IsWhiteoutFor(e.name, Join(q)))
  }

  lemma {:induction false} PlainEntriesSay(entries: seq<Entry>, q: Path)
    requires ValidTarget(q) && Readable(Opened(entries, true), Join(q)) && Plain(Opened(entries, true), q)
    ensures LastSay(entries, q) == match LastData(entries, Join(q)) { case Some(d) => Holds(d) case None => Quiet }
  {
    if entries != [] {
      var e := Last(entries);
      assert forall x <- Init(entries) :: x in entries;
      PlainEntriesSay(Init(entries), q);
      assert e in entries;
      if e.name == Join(q) {
        TargetPath(e, q);
        assert Replaces(e, q) && IsTarget(e, Join(q)) && ReadBounded(e) == e.body;
      } else {
        assert !Replaces(e, q);
      }
    }
  }

  /** So they agree whenever that one layer is plain, whatever the layers below it hold. */
  lemma PlainStacksAgree(layers: seq<Layer>, q: Path, m: nat)
    requires ValidTarget(q) && (forall l <- layers :: Readable(l, Join(q))) && NewestTouching(layers, q, m)
    requires Plain(layers[m], q)
    ensures Scan(layers, Join(q)) == LookupResult(At(Overlay(layers), q))
  {
    var top := layers[m];
    assert top in layers;
    PlainEntriesSay(top.entries, q);
    var e :| e in top.entries && Touches(e, q);
    assert Recognised(e, q);
    ScanRefinesOverlay(layers, q, m);
  }

  const MANIFEST: Path := ["app", "managed-pipelines.json"]

  lemma ManifestPathIsValid()
    ensures ValidTarget(MANIFEST) && Join(MANIFEST) == MANIFEST_PATH
  {
    assert MANIFEST[1..] == ["managed-pipelines.json"];
    assert Last(MANIFEST)[0] == 'm';
  }

  /** The manifest's two markers, as they are written. */
  lemma ManifestMarkers(name: string)
    ensures IsWhiteoutFor(name, MANIFEST_PATH) <==>
      name == "app" + "/" + (".wh." + "managed-pipelines.json") || name == "app" + "/" + ".wh..wh..opq"
  {
    ManifestPathIsValid();
    DirAndBase(MANIFEST);
    assert Init(MANIFEST) == ["app"];
  }

  // ---------------------------------------------------------------- when they do not

  /** A file as tar writes it. */
  function FileEntry(name: string, content: Bytes): Entry {
    Entry(name, |content|, Some(content), File)
  }

  lemma OneEntryLook(e: Entry, target: string)
    requires 0 <= e.size <= MAX_MANIFEST_SIZE && e.body.Some? && |e.body.value| == e.size
    ensures Look(Opened([e], true), target) ==
            if IsWhiteoutFor(e.name, target) then Whiteout
            else if e.name == target then Data(e.body.value) else NotFound
  {
    var none: seq<Entry> := [];
    assert Last([e]) == e && Init([e]) == none && LastData(none, target) == None;
    assert HasWhiteout([e], target) == IsWhiteoutFor(e.name, target) by { assert [e][0] == e; }
    assert !HasBadTarget([e], target);
  }

  lemma OneEntrySay(e: Entry, q: Path)
    ensures SayOf(Opened([e], true), q) ==
            if Replaces(e, q) then if PathOf(e) == q && Denotes(e).Some? then Holds(Denotes(e).value) else Gone
            else if WhitesOut(e, q) then Gone else Quiet
  {
    var none: seq<Entry> := [];
    assert Last([e]) == e && Init([e]) == none && LastSay(none, q) == Quiet;
    assert WhitedOut([e], q) == WhitesOut(e, q) by { assert [e][0] == e; }
  }

  lemma OneThenGone(xs: seq<Extract>, ys: seq<Say>, content: Bytes)
    requires |xs| == |ys| == 2 && xs[0] == Data(content) && xs[1] == NotFound && ys[1] == Gone
    ensures Newest(xs) == Fetched(content) && Shown(ys) == None
  {
    assert Init(xs) == [xs[0]] && Last([xs[0]]) == xs[0];
  }

  lemma UnseenRemoval(file: Layer, removal: Layer, q: Path, content: Bytes)
    requires |q| > 0 && Look(file, Join(q)) == Data(content)
    requires Look(removal, Join(q)) == NotFound && SayOf(removal, q) == Gone
    ensures Scan([file, removal], Join(q)) == Fetched(content) && At(Overlay([file, removal]), q) == None
  {
    var layers := [file, removal];
    OneThenGone(Looks(layers, Join(q)), Says(layers, q), content);
    OverlayAt(layers, q);
  }

  lemma OneEntryOverlooked(e: Entry, q: Path)
    requires |q| > 0
    ensures Overlooked(Opened([e], true), q) <==> Touches(e, q) && !Recognised(e, q)
  {
    assert [e][0] == e;
  }

  /** A marker that the scan does not recognise leaves it with what the layer below holds. */
  lemma UnseenMarker(q: Path, content: Bytes, name: string)
    requires ValidTarget(q) && |content| <= MAX_MANIFEST_SIZE
    requires name != Join(q) && !IsWhiteoutFor(name, Join(q)) && WhitesOut(FileEntry(name, []), q)
    ensures var layers := [Opened([FileEntry(Join(q), content)], true), Opened([FileEntry(name, [])], true)];
      && Scan(layers, Join(q)) == Fetched(content) && At(Overlay(layers), q) == None
      && Overlooked(layers[1], q)
  {
    var f, w := FileEntry(Join(q), content), FileEntry(name, []);
    TargetPath(f, q);
    OneEntryLook(f, Join(q));
    OneEntryLook(w, Join(q));
    OneEntrySay(w, q);
    OneEntryOverlooked(w, q);
    UnseenRemoval(Opened([f], true), Opened([w], true), q, content);
  }

  /** For every target: a newer layer whites out its top directory, and the scan still returns the file. */
  lemma AncestorWhiteoutIsMissed(q: Path, content: Bytes)
    requires ValidTarget(q) && |content| <= MAX_MANIFEST_SIZE
    ensures var removal := WHITEOUT_PREFIX + q[0];
      var layers := [Opened([FileEntry(Join(q), content)], true), Opened([FileEntry(removal, [])], true)];
      && Scan(layers, Join(q)) == Fetched(content) && At(Overlay(layers), q) == None
      && Overlooked(layers[1], q)
  {
    var name := WHITEOUT_PREFIX + q[0];
    assert q[0] in q;
    SplitJoin([name]);
    CleanKeepsOrdinary([name]);
    WhiteoutNames(name, q);
    assert [name][..0] + [name[|WHITEOUT_PREFIX|..]] == [q[0]];
    assert name != OPAQUE_MARKER ==> WhitesOut(FileEntry(name, []), q);
    UnseenMarker(q, content, name);
  }

  /** Another spelling of a path, from the current directory. */
  function Dotted(q: Path): string {
    Join(["."] + q)
  }

  lemma DottedPath(q: Path)
    requires |q| > 0 && SlashFree(q) && forall c <- q :: Ordinary(c)
    ensures Split(Dotted(q)) == ["."] + q && Clean(Split(Dotted(q))) == q && Dotted(q) == "." + "/" + Join(q)
  {
    SplitDotted(q);
    assert (["."] + q)[1..] == q;
    CleanDropsDot(q);
    CleanKeepsOrdinary(q);
  }

  lemma SplitDotted(q: Path)
    requires |q| > 0 && SlashFree(q)
    ensures Split(Dotted(q)) == ["."] + q
  {
    var d := ["."] + q;
    forall c | c in d ensures '/' !in c {
      var i :| 0 <= i < |d| && d[i] == c;
      assert i > 0 ==> c == q[i - 1];
    }
    SplitJoin(d);
  }

  /** The path of the marker that removes a file. */
  function MarkerOf(q: Path): Path
    requires |q| > 0
  {
    Init(q) + [WHITEOUT_PREFIX + Last(q)]
  }

  lemma MarkerOfIsOrdinary(q: Path)
    requires ValidTarget(q)
    ensures SlashFree(MarkerOf(q)) && forall c <- MarkerOf(q) :: Ordinary(c)
    ensures Last(MarkerOf(q)) != OPAQUE_MARKER
  {
    forall c | c in MarkerOf(q) ensures '/' !in c && Ordinary(c) {
      assert c in Init(q) || c == WHITEOUT_PREFIX + Last(q);
      assert c in Init(q) ==> c in q;
      assert Last(q) in q;
    }
    assert Last(MarkerOf(q))[|WHITEOUT_PREFIX|..] == Last(q);
    assert WHITEOUT_PREFIX <= OPAQUE_MARKER[|WHITEOUT_PREFIX|..];
  }

  /** The scan compares names, and one that starts from "." is none of those it looks for. */
  lemma DottedIsUnrecognised(p: Path, q: Path)
    requires ValidTarget(q) && |p| > 0 && SlashFree(p) && forall c <- p :: Ordinary(c)
    ensures Dotted(p) != Join(q) && !IsWhiteoutFor(Dotted(p), Join(q))
  {
    DottedPath(p);
    WhiteoutNames(Dotted(p), q);
    assert Split(Dotted(p))[0] == "." && q[0] in q && Init(q)[0] == q[0];
  }

  lemma DottedMarkerHides(q: Path)
    requires ValidTarget(q)
    ensures WhitesOut(FileEntry(Dotted(MarkerOf(q)), []), q)
  {
    var m := MarkerOf(q);
    MarkerOfIsOrdinary(q);
    DottedPath(m);
    assert Init(m) == Init(q) && Last(m)[|WHITEOUT_PREFIX|..] == Last(q) && Init(q) + [Last(q)] == q;
  }

  /** For every target: a newer layer whites out the file itself, spelled from ".", and the scan still returns it. */
  lemma DottedWhiteoutIsMissed(q: Path, content: Bytes)
    requires ValidTarget(q) && |content| <= MAX_MANIFEST_SIZE
    ensures var layers :=
        [Opened([FileEntry(Join(q), content)], true), Opened([FileEntry(Dotted(MarkerOf(q)), [])], true)];
      && Scan(layers, Join(q)) == Fetched(content) && At(Overlay(layers), q) == None
      && Overlooked(layers[1], q)
  {
    MarkerOfIsOrdinary(q);
    DottedIsUnrecognised(MarkerOf(q), q);
    DottedMarkerHides(q);
    UnseenMarker(q, content, Dotted(MarkerOf(q)));
  }

  lemma OneLayer(layer: Layer, q: Path)
    requires |q| > 0
    ensures Scan([layer], Join(q)) ==
            if Look(layer, Join(q)).NotFound? then Permanent(FileMissing) else Outcome(Look(layer, Join(q)))
    ensures At(Overlay([layer]), q) == if SayOf(layer, q).Holds? then Some(SayOf(layer, q).content) else None
  {
    var none: seq<Layer>, nothing: seq<Extract>, quiet: seq<Say> := [], [], [];
    var xs, ys := Looks([layer], Join(q)), Says([layer], q);
    assert Init(xs) == nothing && Newest(nothing) == Permanent(FileMissing);
    assert Init(ys) == quiet && Shown(quiet) == None;
    OverlayAt([layer], q);
  }

  /** For every target: the file itself is spelled from ".", and the scan reports it missing. */
  lemma DottedFileIsMissed(q: Path, content: Bytes)
    requires ValidTarget(q) && |content| <= MAX_MANIFEST_SIZE
    ensures var layer := Opened([FileEntry(Dotted(q), content)], true);
      && Scan([layer], Join(q)) == Permanent(FileMissing) && At(Overlay([layer]), q) == Some(content)
      && Overlooked(layer, q)
  {
    var e := FileEntry(Dotted(q), content);
    DottedPath(q);
    DottedIsUnrecognised(q, q);
    OneEntryLook(e, Join(q));
    OneEntrySay(e, q);
    OneEntryOverlooked(e, q);
    OneLayer(Opened([e], true), q);
  }

  /** For every target: it is a link to a file with content, and the scan reads it as an empty file. */
  lemma LinkReadsEmpty(q: Path, content: Bytes)
    requires ValidTarget(q)
    ensures var layer := Opened([Entry(Join(q), 0, Some([]), Link(Some(content)))], true);
      && Scan([layer], Join(q)) == Fetched([]) && At(Overlay([layer]), q) == Some(content)
      && (Distorted(layer, q) <==> content != [])
  {
    var e := Entry(Join(q), 0, Some([]), Link(Some(content)));
    TargetPath(e, q);
    OneEntryLook(e, Join(q));
    OneEntrySay(e, q);
    OneLayer(Opened([e], true), q);
    assert [e][0] == e && Recognised(e, q);
    assert LastData([e], Join(q)) == Some([]) && LastSay([e], q) == Holds(content) by {
      assert Last([e]) == e;
    }
  }
}
