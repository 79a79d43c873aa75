// The texture tables of the Vulkan build: two parallel lists that are pushed and removed together,
// and ids from a 32-bit counter.
module TextureTables {
  import opened Options
  import MipChain

  const ID_LIMIT: nat := 0x1_0000_0000

  /** A GPU image: the file it was made from, the value of the id counter at that moment, and its
      number of mip levels. */
  datatype Image = Image(file: string, serial: nat, mipLevels: nat)

  datatype TextureInfo = TextureInfo(fileName: string, id: nat, extent: MipChain.Extent)

  /** `destroyed` are the images given back to the device, in order. */
  datatype State = State(images: seq<Image>, infos: seq<TextureInfo>, sequenceId: nat, destroyed: seq<Image>)

  const EMPTY: State := State([], [], 0, [])

  function ById(infos: seq<TextureInfo>, id: nat): (i: nat)
    ensures i <= |infos| && (i < |infos| ==> infos[i].id == id)
    ensures forall k :: 0 <= k < i ==> infos[k].id != id
  {
    if infos == [] || infos[0].id == id then 0 else 1 + ById(infos[1..], id)
  }

  function ByName(infos: seq<TextureInfo>, name: string): (i: nat)
    ensures i <= |infos| && (i < |infos| ==> infos[i].fileName == name)
    ensures forall k :: 0 <= k < i ==> infos[k].fileName != name
  {
    if infos == [] || infos[0].fileName == name then 0 else 1 + ByName(infos[1..], name)
  }

  function Without<T>(s: seq<T>, i: nat): (r: seq<T>)
    requires i < |s|
    ensures |r| == |s| - 1 && forall k :: 0 <= k < |r| ==> r[k] == s[if k < i then k else k + 1]
  {
    s[..i] + s[i + 1..]
  }

  function NextId(s: State): nat { (s.sequenceId + 1) % ID_LIMIT }

  predicate Aligned(s: State) { |s.images| == |s.infos| }

  // ----- operations -----------------------------------------------------------------------

  /** CreateTextureFromPngFile(): `decoded` is the size of the picture, None when it cannot be read. */
  function Create(s: State, file: string, decoded: Option<MipChain.Extent>): State
    requires decoded.Some? ==> decoded.value.width >= 1 && decoded.value.height >= 1
  {
    if ByName(s.infos, file) < |s.infos| || decoded.None? then s
    else s.(images := s.images + [Image(file, NextId(s), MipChain.MipLevels(decoded.value))],
            infos := s.infos + [TextureInfo(file, NextId(s), decoded.value)],
            sequenceId := NextId(s))
  }

  function RemoveAt(s: State, i: nat): State
    requires Aligned(s) && i <= |s.infos|
  {
    if i == |s.infos| then s
    else s.(images := Without(s.images, i), infos := Without(s.infos, i), destroyed := s.destroyed + [s.images[i]])
  }

  function ReleaseAll(s: State): State {
    s.(images := [], infos := [], destroyed := s.destroyed + s.images)
  }

  /** GetTexture() */
  function Lookup(s: State, id: nat): Option<Image>
    requires Aligned(s)
  {
    if ById(s.infos, id) < |s.infos| then Some(s.images[ById(s.infos, id)]) else None
  }

  datatype Step =
    | DoCreate(file: string, decoded: Option<MipChain.Extent>)
    | ReleaseId(id: nat)
    | ReleaseName(file: string)
    | DoReleaseAll

  predicate WellFormed(step: Step) {
    step.DoCreate? && step.decoded.Some? ==> step.decoded.value.width >= 1 && step.decoded.value.height >= 1
  }

  function Next(s: State, step: Step): (s': State)
    requires Aligned(s) && WellFormed(step)
    ensures Aligned(s')
  {
    match step
    case DoCreate(file, decoded) => Create(s, file, decoded)
    case ReleaseId(id) => RemoveAt(s, ById(s.infos, id))
    case ReleaseName(file) => RemoveAt(s, ByName(s.infos, file))
    case DoReleaseAll => ReleaseAll(s)
  }

  // ----- the invariant --------------------------------------------------------------------

  predicate UniqueIds(infos: seq<TextureInfo>) {
    forall i, j :: 0 <= i < j < |infos| ==> infos[i].id != infos[j].id
  }

  predicate UniqueNames(infos: seq<TextureInfo>) {
    forall i, j :: 0 <= i < j < |infos| ==> infos[i].fileName != infos[j].fileName
  }

  /** The image has all levels of the picture. */
  predicate FullChain(image: Image, extent: MipChain.Extent) {
    extent.width >= 1 && extent.height >= 1 && image.mipLevels == MipChain.MipLevels(extent)
  }

  /** The two lists run side by side, each row with the image made for it, and no file is loaded twice. */
  predicate Paired(s: State) {
    && Aligned(s)
    && (forall i :: 0 <= i < |s.infos| ==> FullChain(s.images[i], s.infos[i].extent))
    && (forall i :: 0 <= i < |s.infos| ==> s.images[i].file == s.infos[i].fileName && s.images[i].serial == s.infos[i].id)
    && UniqueNames(s.infos)
  }

  predicate NoRepeats(images: seq<Image>) {
    forall i, j :: 0 <= i < j < |images| ==> images[i].serial != images[j].serial
  }

  /** While the counter has not wrapped: every id handed out belongs to exactly one image, and that is
      either live or destroyed once. */
  predicate Accounted(s: State) {
    && |s.images| + |s.destroyed| == s.sequenceId
    && NoRepeats(s.images + s.destroyed)
    && forall i :: 0 <= i < |s.images + s.destroyed| ==> 1 <= (s.images + s.destroyed)[i].serial <= s.sequenceId
  }

  lemma CreatePaired(s: State, file: string, decoded: Option<MipChain.Extent>)
    requires Paired(s) && WellFormed(DoCreate(file, decoded))
    ensures Paired(Create(s, file, decoded))
  {
  }

  lemma RemovePaired(s: State, i: nat)
    requires Paired(s) && i <= |s.infos|
    ensures Paired(RemoveAt(s, i))
  {
  }

  lemma PairedNext(s: State, step: Step)
    requires Paired(s) && WellFormed(step)
    ensures Paired(Next(s, step))
  {
    match step {
      case DoCreate(file, decoded) => CreatePaired(s, file, decoded);
      case ReleaseId(id) => RemovePaired(s, ById(s.infos, id));
      case ReleaseName(file) => RemovePaired(s, ByName(s.infos, file));
      case DoReleaseAll =>
    }
  }

  /** Live ids are unique because images are accounted for. */
  lemma AccountedIds(s: State)
    requires Paired(s) && Accounted(s)
    ensures UniqueIds(s.infos)
  {
    forall i, j | 0 <= i < j < |s.infos| ensures s.infos[i].id != s.infos[j].id {
      assert (s.images + s.destroyed)[i] == s.images[i] && (s.images + s.destroyed)[j] == s.images[j];
    }
  }

  lemma CreateAccounted(s: State, file: string, decoded: Option<MipChain.Extent>)
    requires Paired(s) && Accounted(s) && WellFormed(DoCreate(file, decoded)) && s.sequenceId + 1 < ID_LIMIT
    ensures Accounted(Create(s, file, decoded))
  {
    var s' := Create(s, file, decoded);
    if s' != s {
      assert NextId(s) == s.sequenceId + 1;
      var made := Image(file, NextId(s), MipChain.MipLevels(decoded.value));
      assert s'.images + s'.destroyed == s.images + [made] + s.destroyed;
      InsertFresh(s.images, made, s.destroyed, s.sequenceId);
    }
  }

  lemma InsertFresh(a: seq<Image>, made: Image, b: seq<Image>, limit: nat)
    requires NoRepeats(a + b) && made.serial == limit + 1
    requires forall i :: 0 <= i < |a + b| ==> 1 <= (a + b)[i].serial <= limit
    ensures NoRepeats(a + [made] + b)
    ensures forall i :: 0 <= i < |a + [made] + b| ==> 1 <= (a + [made] + b)[i].serial <= limit + 1
  {
    var all, more := a + b, a + [made] + b;
    forall i | 0 <= i < |more|
      ensures more[i] == if i == |a| then made else all[if i < |a| then i else i - 1]
    {
    }
  }

  lemma RemoveAccounted(s: State, i: nat)
    requires Paired(s) && Accounted(s) && i <= |s.infos|
    ensures Accounted(RemoveAt(s, i))
  {
    if i < |s.infos| {
      MovedToEnd(s.images, s.destroyed, i);
    }
  }

  lemma MovedToEnd(a: seq<Image>, b: seq<Image>, i: nat)
    requires i < |a|
    ensures var all, all' := a + b, Without(a, i) + (b + [a[i]]);
            |all'| == |all|
            && forall k :: 0 <= k < |all'| ==> all'[k] == all[if k < i then k else if k < |all'| - 1 then k + 1 else i]
  {
  }

  lemma AllAccounted(s: State)
    requires Paired(s) && Accounted(s)
    ensures Accounted(ReleaseAll(s))
  {
    var n, d, all := |s.images|, |s.destroyed|, s.images + s.destroyed;
    var all' := [] + (s.destroyed + s.images);
    assert ReleaseAll(s).images + ReleaseAll(s).destroyed == all';
    assert forall k :: 0 <= k < |all'| ==> all'[k] == all[if k < d then n + k else k - d];
  }

  lemma AccountedNext(s: State, step: Step)
    requires Paired(s) && Accounted(s) && WellFormed(step)
    requires step.DoCreate? ==> s.sequenceId + 1 < ID_LIMIT
    ensures Accounted(Next(s, step))
  {
    match step {
      case DoCreate(file, decoded) => CreateAccounted(s, file, decoded);
      case ReleaseId(id) => RemoveAccounted(s, ById(s.infos, id));
      case ReleaseName(file) => RemoveAccounted(s, ByName(s.infos, file));
      case DoReleaseAll => AllAccounted(s);
    }
  }

  // ----- whole runs -----------------------------------------------------------------------

  predicate AllWellFormed(steps: seq<Step>) {
    forall i :: 0 <= i < |steps| ==> WellFormed(steps[i])
  }

  function Run(s: State, steps: seq<Step>): (s': State)
    requires Aligned(s) && AllWellFormed(steps)
    ensures Aligned(s')
    decreases |steps|
  {
    if steps == [] then s else Next(Run(s, steps[..|steps| - 1]), steps[|steps| - 1])
  }

  /** Over any run at all, also past the wrap of the counter: the lists stay aligned, each row with the image
      made for it, and no file is loaded twice. */
  lemma {:induction false} RunPaired(s: State, steps: seq<Step>)
    requires Paired(s) && AllWellFormed(steps)
    ensures Paired(Run(s, steps))
    decreases |steps|
  {
    if steps != [] {
      RunPaired(s, steps[..|steps| - 1]);
      PairedNext(Run(s, steps[..|steps| - 1]), steps[|steps| - 1]);
    }
  }

  function Creates(steps: seq<Step>): nat {
    if steps == [] then 0 else Creates(steps[..|steps| - 1]) + if steps[|steps| - 1].DoCreate? then 1 else 0
  }

  /** Over any run with fewer creations than there are ids: the lists stay aligned, names and ids are unique, and
      images are neither leaked nor destroyed twice. */
  lemma {:induction false} EveryRun(steps: seq<Step>)
    requires AllWellFormed(steps) && Creates(steps) < 0x1_0000_0000
    ensures var s := Run(EMPTY, steps);
            Paired(s) && Accounted(s) && UniqueIds(s.infos) && s.sequenceId <= Creates(steps)
    decreases |steps|
  {
    if steps != [] {
      var front := steps[..|steps| - 1];
      EveryRun(front);
      AccountedNext(Run(EMPTY, front), steps[|steps| - 1]);
    }
    RunPaired(EMPTY, steps);
    AccountedIds(Run(EMPTY, steps));
  }

  /** A lookup of a live id gives the image made for that very file. */
  lemma {:induction false} LookupIsOwnImage(s: State, i: nat)
    requires Paired(s) && UniqueIds(s.infos) && i < |s.infos|
    ensures Lookup(s, s.infos[i].id) == Some(s.images[i])
    ensures s.images[i].file == s.infos[i].fileName
  {
    var k := ById(s.infos, s.infos[i].id);
    assert k == i;
  }

  /** The step releases the texture at row `i`. */
  predicate Releases(s: State, step: Step, i: nat)
    requires i < |s.infos|
  {
    match step
    case DoCreate(_, _) => false
    case ReleaseId(id) => id == s.infos[i].id
    case ReleaseName(file) => file == s.infos[i].fileName
    case DoReleaseAll => true
  }

  /** One step: the id of a texture gives its image, or nothing when the step releases it. */
  lemma LookupStep(s: State, step: Step, i: nat)
    requires Paired(s) && UniqueIds(s.infos) && WellFormed(step) && i < |s.infos|
    requires UniqueIds(Next(s, step).infos)
    ensures Lookup(Next(s, step), s.infos[i].id) == if Releases(s, step, i) then None else Some(s.images[i])
  {
    var s' := Next(s, step);
    PairedNext(s, step);
    if s'.infos == s.infos {
      LookupIsOwnImage(s, i);
    } else {
      match step {
        case DoCreate(_, _) => LookupIsOwnImage(s', i);
        case ReleaseId(id) => RemovedLookup(s, ById(s.infos, id), i);
        case ReleaseName(file) => RemovedLookup(s, ByName(s.infos, file), i);
        case DoReleaseAll =>
      }
    }
  }

  lemma RemovedLookup(s: State, r: nat, i: nat)
    requires Paired(s) && UniqueIds(s.infos) && r < |s.infos| && i < |s.infos|
    ensures Lookup(RemoveAt(s, r), s.infos[i].id) == if i == r then None else Some(s.images[i])
  {
    var s' := RemoveAt(s, r);
    var k := ById(s'.infos, s.infos[i].id);
    if k < |s'.infos| { assert s'.infos[k] == s.infos[if k < r then k else k + 1]; }
    if i != r { assert s'.infos[if i < r then i else i - 1] == s.infos[i]; }
  }

  /** No step of the run releases the texture of this id and file. */
  predicate NoRelease(steps: seq<Step>, id: nat, file: string) {
    forall i :: 0 <= i < |steps| ==>
                  steps[i] != ReleaseId(id) && steps[i] != ReleaseName(file) && !steps[i].DoReleaseAll?
  }

  /** Until a texture is released its id keeps giving the same image, over any run, whatever else is
      created or released, also past the wrap of the counter. */
  lemma {:induction false} LookupStable(s: State, id: nat, image: Image, steps: seq<Step>)
    requires Paired(s) && Lookup(s, id) == Some(image)
    requires AllWellFormed(steps) && NoRelease(steps, id, image.file)
    ensures Lookup(Run(s, steps), id) == Some(image)
    decreases |steps|
  {
    if steps != [] {
      var n := |steps| - 1;
      LookupStable(s, id, image, steps[..n]);
      RunPaired(s, steps[..n]);
      KeptStep(Run(s, steps[..n]), steps[n], id);
    }
  }

  lemma KeptStep(s: State, step: Step, id: nat)
    requires Paired(s) && WellFormed(step) && ById(s.infos, id) < |s.infos|
    requires step != ReleaseId(id) && step != ReleaseName(s.infos[ById(s.infos, id)].fileName) && !step.DoReleaseAll?
    ensures Lookup(Next(s, step), id) == Lookup(s, id)
  {
    match step {
      case DoCreate(file, decoded) => FirstStays(s, Create(s, file, decoded), id);
      case ReleaseId(other) => OtherRemoved(s, ById(s.infos, other), id);
      case ReleaseName(file) => OtherRemoved(s, ByName(s.infos, file), id);
    }
  }

  lemma FirstStays(s: State, s': State, id: nat)
    requires Aligned(s) && Aligned(s') && s.infos <= s'.infos && s.images <= s'.images
    requires ById(s.infos, id) < |s.infos|
    ensures Lookup(s', id) == Lookup(s, id)
  {
    assert s'.infos[ById(s.infos, id)].id == id;
  }

  lemma OtherRemoved(s: State, r: nat, id: nat)
    requires Aligned(s) && r <= |s.infos| && ById(s.infos, id) < |s.infos| && r != ById(s.infos, id)
    ensures Lookup(RemoveAt(s, r), id) == Lookup(s, id)
  {
    if r < |s.infos| {
      var i := ById(s.infos, id);
      var at := if r < i then i - 1 else i;
      var rest := Without(s.infos, r);
      assert rest[at] == s.infos[i];
      assert ById(rest, id) == at;
    }
  }

  /** An id that was handed out and gives nothing stays so while fewer textures are created than there
      are ids. */
  lemma {:induction false} ReleasedStaysGone(s: State, id: nat, steps: seq<Step>)
    requires Paired(s) && AllWellFormed(steps) && Lookup(s, id).None?
    requires 1 <= id <= s.sequenceId && s.sequenceId + Creates(steps) < ID_LIMIT
    ensures Lookup(Run(s, steps), id).None?
    ensures s.sequenceId <= Run(s, steps).sequenceId <= s.sequenceId + Creates(steps)
    decreases |steps|
  {
    if steps != [] {
      var n := |steps| - 1;
      ReleasedStaysGone(s, id, steps[..n]);
      GoneStep(Run(s, steps[..n]), steps[n], id);
    }
  }

  lemma GoneStep(s: State, step: Step, id: nat)
    requires Aligned(s) && WellFormed(step) && Lookup(s, id).None?
    requires 1 <= id <= s.sequenceId && (step.DoCreate? ==> s.sequenceId + 1 < ID_LIMIT)
    ensures var s' := Next(s, step);
            && Lookup(s', id).None?
            && s.sequenceId <= s'.sequenceId <= s.sequenceId + if step.DoCreate? then 1 else 0
  {
    assert forall k :: 0 <= k < |s.infos| ==> s.infos[k].id != id;
    assert forall k :: 0 <= k < |Next(s, step).infos| ==> Next(s, step).infos[k].id != id;
  }

  /** Past the wrap the counter can hand out a live id again: a creation keeps ids unique exactly when
      the next counter value is not in use. */
  lemma UniqueAfterCreateIff(s: State, file: string, decoded: Option<MipChain.Extent>)
    requires Paired(s) && UniqueIds(s.infos) && WellFormed(DoCreate(file, decoded))
    requires ByName(s.infos, file) == |s.infos| && decoded.Some?
    ensures UniqueIds(Create(s, file, decoded).infos) <==> ById(s.infos, NextId(s)) == |s.infos|
  {
    var s', k := Create(s, file, decoded), ById(s.infos, NextId(s));
    if k < |s.infos| { assert s'.infos[k].id == s'.infos[|s.infos|].id; }
  }

  const DOT: MipChain.Extent := MipChain.Extent(1, 1)

  /** One texture kept, another made and released again. */
  function Cycle(): seq<Step> { [DoCreate("b", Some(DOT)), ReleaseName("b")] }

  /** Only the texture of the first file is live, with id 1. */
  predicate OnlyFirst(s: State) {
    Aligned(s) && s.infos == [TextureInfo("a", 1, DOT)]
  }

  lemma CycleAdvances(s: State)
    requires OnlyFirst(s)
    ensures var s' := Run(s, Cycle()); OnlyFirst(s') && s'.sequenceId == NextId(s)
  {
    var s1 := Create(s, "b", Some(DOT));
    assert Cycle()[..1] == [DoCreate("b", Some(DOT))] && Cycle()[..1][..0] == [];
    assert Run(s, Cycle()[..1]) == s1;
    assert s1.infos == [TextureInfo("a", 1, DOT), TextureInfo("b", NextId(s), DOT)];
    assert ByName(s1.infos, "b") == 1;
    assert Without(s1.infos, 1) == [TextureInfo("a", 1, DOT)];
  }

  lemma {:induction false} RunConcat(s: State, x: seq<Step>, y: seq<Step>)
    requires Aligned(s) && AllWellFormed(x) && AllWellFormed(y)
    ensures AllWellFormed(x + y) && Run(s, x + y) == Run(Run(s, x), y)
    decreases |y|
  {
    if y == [] {
      assert x + y == x;
    } else {
      RunConcat(s, x, y[..|y| - 1]);
      assert (x + y)[..|x + y| - 1] == x + y[..|y| - 1];
    }
  }

  /** A run to a state where only the first texture is live and the counter stands at `n`. */
  predicate CountsTo(steps: seq<Step>, n: nat) {
    AllWellFormed(steps) && OnlyFirst(Run(EMPTY, steps)) && Run(EMPTY, steps).sequenceId == n
  }

  /** From the first creation on, `n` cycles advance the counter by `n`. */
  lemma {:induction false} CounterReaches(n: nat) returns (steps: seq<Step>)
    requires n < ID_LIMIT - 1
    ensures CountsTo(steps, n + 1)
  {
    if n == 0 {
      steps := FirstCreated();
    } else {
      var front := CounterReaches(n - 1);
      steps := OneCycleMore(front, n);
    }
  }

  lemma FirstCreated() returns (steps: seq<Step>)
    ensures CountsTo(steps, 1)
  {
    steps := [DoCreate("a", Some(DOT))];
    assert steps[..0] == [];
    assert Run(EMPTY, steps) == Create(EMPTY, "a", Some(DOT));
  }

  lemma CountsOn(front: seq<Step>, more: seq<Step>, n: nat)
    requires AllWellFormed(front) && AllWellFormed(more)
    requires OnlyFirst(Run(Run(EMPTY, front), more)) && Run(Run(EMPTY, front), more).sequenceId == n
    ensures CountsTo(front + more, n)
  {
    RunConcat(EMPTY, front, more);
  }

  lemma OneCycleMore(front: seq<Step>, n: nat) returns (steps: seq<Step>)
    requires n < ID_LIMIT && CountsTo(front, n)
    ensures CountsTo(steps, if n == ID_LIMIT - 1 then 0 else n + 1)
  {
    steps := front + Cycle();
    CycleAdvances(Run(EMPTY, front));
    CountsOn(front, Cycle(), if n == ID_LIMIT - 1 then 0 else n + 1);
  }

  lemma CreateShares(s: State)
    requires OnlyFirst(s) && s.sequenceId == 0
    ensures !UniqueIds(Run(s, [DoCreate("b", Some(DOT))]).infos)
  {
    var last := [DoCreate("b", Some(DOT))];
    assert last[..|last| - 1] == [];
    assert Run(s, last) == Create(s, "b", Some(DOT));
    assert s.infos[0].fileName == "a" && ByName(s.infos, "b") == |s.infos|;
    var infos := Run(s, last).infos;
    assert infos == s.infos + [TextureInfo("b", 1, DOT)];
    assert infos[0].id == infos[1].id;
  }

  /** A run leads to a creation whose next id is in use: afterwards two live textures share an id. */
  lemma SharedIdReachable()
    ensures exists steps :: AllWellFormed(steps) && !UniqueIds(Run(EMPTY, steps).infos)
  {
    var almost := CounterReaches(ID_LIMIT - 2);
    var wrapped := OneCycleMore(almost, ID_LIMIT - 1);
    var last := [DoCreate("b", Some(DOT))];
    RunConcat(EMPTY, wrapped, last);
    CreateShares(Run(EMPTY, wrapped));
    assert !UniqueIds(Run(EMPTY, wrapped + last).infos);
  }

  // ----- the manager ----------------------------------------------------------------------

  class TextureManager {
    var textures: seq<Image>
    var texturesInfo: seq<TextureInfo>
    var sequenceId: nat
    var destroyed: seq<Image>

    function Abs(): State
      reads this
    {
      State(textures, texturesInfo, sequenceId, destroyed)
    }

    constructor ()
      ensures Abs() == EMPTY
    {
      textures, texturesInfo, sequenceId, destroyed := [], [], 0, [];
    }

    method CreateTextureFromPngFile(file: string, decoded: Option<MipChain.Extent>) returns (info: Option<TextureInfo>)
      requires WellFormed(DoCreate(file, decoded))
      modifies this
      ensures Abs() == Create(old(Abs()), file, decoded)
      ensures info.Some? ==> info.value.fileName == file && info.value in texturesInfo
      ensures info.None? <==> file !in (set t | t in texturesInfo :: t.fileName)
    {
      for i := 0 to |texturesInfo|
        invariant unchanged(this)
        invariant forall k :: 0 <= k < i ==> texturesInfo[k].fileName != file
      {
        if texturesInfo[i].fileName == file {
          return Some(texturesInfo[i]);
        }
      }
      if decoded.None? {
        return None;
      }
      var mipLevels := MipChain.MipLevels(decoded.value);
      var nextId := (sequenceId + 1) % ID_LIMIT;
      textures := textures + [Image(file, nextId, mipLevels)];
      sequenceId := nextId;
      var textureInfo := TextureInfo(file, sequenceId, decoded.value);
      texturesInfo := texturesInfo + [textureInfo];
      return Some(textureInfo);
    }

    method GetTexture(textureId: nat) returns (texture: Option<Image>)
      requires Aligned(Abs())
      ensures texture == Lookup(Abs(), textureId)
    {
      for i := 0 to |texturesInfo|
        invariant forall k :: 0 <= k < i ==> texturesInfo[k].id != textureId
      {
        if texturesInfo[i].id == textureId {
          return Some(textures[i]);
        }
      }
      return None;
    }

    method ReleaseTextures()
      modifies this
      ensures Abs() == ReleaseAll(old(Abs()))
    {
      for i := 0 to |textures|
        invariant textures == old(textures) && texturesInfo == old(texturesInfo) && sequenceId == old(sequenceId)
        invariant destroyed == old(destroyed) + textures[..i]
      {
        destroyed := destroyed + [textures[i]];
      }
      assert textures[..|textures|] == textures;
      textures := [];
      texturesInfo := [];
    }

    method ReleaseTextureById(textureId: nat)
      requires Aligned(Abs())
      modifies this
      ensures Abs() == Next(old(Abs()), ReleaseId(textureId))
    {
      for i := 0 to |texturesInfo|
        invariant unchanged(this)
        invariant forall k :: 0 <= k < i ==> texturesInfo[k].id != textureId
      {
        if texturesInfo[i].id == textureId {
          RemoveRow(i);
          return;
        }
      }
    }

    method ReleaseTextureByName(fileName: string)
      requires Aligned(Abs())
      modifies this
      ensures Abs() == Next(old(Abs()), ReleaseName(fileName))
    {
      for i := 0 to |texturesInfo|
        invariant unchanged(this)
        invariant forall k :: 0 <= k < i ==> texturesInfo[k].fileName != fileName
      {
        if texturesInfo[i].fileName == fileName {
          RemoveRow(i);
          return;
        }
      }
    }

    /** Destroy the image and drop the row from both lists. */
    method RemoveRow(i: nat)
      requires Aligned(Abs()) && i < |texturesInfo|
      modifies this
      ensures Abs() == RemoveAt(old(Abs()), i)
    {
      destroyed := destroyed + [textures[i]];
      textures := textures[..i] + textures[i + 1..];
      texturesInfo := texturesInfo[..i] + texturesInfo[i + 1..];
    }
  }
}
