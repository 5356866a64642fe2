/**
 * The Models object: it builds one grid per configured mask as each mask
 * image finishes loading, counts the built grids, becomes ready when all of
 * them are built, and from then on switches the visible grid when a button
 * is clicked: the new grid is revealed, the old one hidden, and no second
 * switch starts while the hide is running.
 *
 * The tween timelines are modelled by their end states: a revealed box ends
 * at scale 1 and depth 0, a hidden box is snapped to scale 0 and depth -6.
 * The end of the hide timeline is an explicit event, HideComplete.
 */
module Models {

  import opened Mask
  import opened GridBuilder

  datatype Option<T> = None | Some(value: T)

  /** One configured grid: its id, its mask image and its video. */
  datatype Config = Config(id: string, mask: string, video: string)

  /**
   * What the loader stores per grid id: the lattice size, the RGBA data read
   * back from the canvas, and whether the video material has been attached.
   */
  datatype GridInfo = GridInfo(width: nat, height: nat, data: seq<Byte>, hasMaterial: bool)
  {
    /** The data holds the four channels of every lattice position. */
    predicate Fits()
    {
      |data| == Channels * width * height
    }
  }

  /** A built grid: the group named after its config id, and its boxes in creation order. */
  datatype Grid = Grid(name: string, cubes: seq<Cube>)

  const Configs: seq<Config> := [
    Config("heart", "heart.jpg", "fruits_trail_squared-transcode.mp4"),
    Config("codrops", "codrops.jpg", "KinectCube_1350-transcode.mp4"),
    Config("smile", "smile.jpg", "infinte-grid_squared-transcode.mp4")
  ]

  /** The grid that is visible once the scene is ready. */
  const InitialId: string := "heart"

  /** The depth at which hidden boxes are parked, out of view. */
  const ParkedZ: real := -6.0

  const ColorMap: map<string, string> := map["heart" := "#e19800", "codrops" := "#00a00b", "smile" := "#b90000"]
  const FallbackColor: string := "#1a1a1a"

  /** The colour table lookup with the fallback: the mapped colour unless it is missing or empty (falsy). */
  function ColorFor(id: string): (c: string)
    ensures id in ColorMap ==> c == ColorMap[id]
    ensures c == FallbackColor <==> id !in ColorMap
  {
    if id in ColorMap && ColorMap[id] != "" then ColorMap[id] else FallbackColor
  }

  /** The end state of a hidden box: scale 0 on every axis, parked depth. */
  function Parked(c: Cube): Cube
  {
    c.(scale := 0.0, pz := ParkedZ)
  }

  /** The end state of a revealed box: scale 1 on every axis, depth 0. */
  function Revealed(c: Cube): Cube
  {
    c.(scale := 1.0, pz := 0.0)
  }

  /** Two boxes stand for the same lattice cell at the same texture rectangle and x, y position. */
  predicate SamePlacement(a: Cube, b: Cube)
  {
    a.col == b.col && a.row == b.row && a.uvs == b.uvs && a.px == b.px && a.py == b.py
  }

  /** Every box parked, each keeping its placement. */
  function ParkAll(cs: seq<Cube>): (r: seq<Cube>)
    ensures |r| == |cs|
    ensures forall k :: 0 <= k < |r| ==> r[k].scale == 0.0 && r[k].pz == ParkedZ && SamePlacement(r[k], cs[k])
  {
    seq(|cs|, k requires 0 <= k < |cs| => Parked(cs[k]))
  }

  /** Every box revealed, each keeping its placement. */
  function RevealAll(cs: seq<Cube>): (r: seq<Cube>)
    ensures |r| == |cs|
    ensures forall k :: 0 <= k < |r| ==> r[k].scale == 1.0 && r[k].pz == 0.0 && SamePlacement(r[k], cs[k])
  {
    seq(|cs|, k requires 0 <= k < |cs| => Revealed(cs[k]))
  }

  /** The snap at the end of a hide is idempotent: parking a parked grid changes nothing. */
  lemma ParkAllIdempotent(cs: seq<Cube>)
    ensures ParkAll(ParkAll(cs)) == ParkAll(cs)
  {
  }

  /**
   * Hiding a freshly built grid and revealing it again gives back exactly the
   * boxes that were built: every built box stands at depth 0 and scale 1.
   */
  lemma {:induction false} RevealAfterPark(data: seq<Byte>, width: nat, height: nat, boxUV: seq<real>)
    requires |data| == Channels * width * height
    ensures RevealAll(ParkAll(AllCubes(data, width, height, boxUV))) == AllCubes(data, width, height, boxUV)
  {
    var cs := AllCubes(data, width, height, boxUV);
    AllCubesExact(data, width, height, boxUV);
    forall k | 0 <= k < |cs| ensures RevealAll(ParkAll(cs))[k] == cs[k] {
      assert MadeFor(data, width, height, boxUV, cs[k]);
    }
  }

  /** The source's `children.forEach` that snaps every box of a hidden grid. */
  method ParkCubes(cubes: seq<Cube>) returns (r: seq<Cube>)
    ensures r == ParkAll(cubes)
  {
    r := cubes;
    var k := 0;
    while k < |r|
      invariant k <= |r| == |cubes|
      invariant forall j :: 0 <= j < k ==> r[j] == Parked(cubes[j])
      invariant forall j :: k <= j < |r| ==> r[j] == cubes[j]
    {
      r := r[k := r[k].(scale := 0.0, pz := ParkedZ)];
      k := k + 1;
    }
  }

  /** The source's `children.forEach` over a revealed grid, by the end state of each tween. */
  method RevealCubes(cubes: seq<Cube>) returns (r: seq<Cube>)
    ensures r == RevealAll(cubes)
  {
    r := cubes;
    var k := 0;
    while k < |r|
      invariant k <= |r| == |cubes|
      invariant forall j :: 0 <= j < k ==> r[j] == Revealed(cubes[j])
      invariant forall j :: k <= j < |r| ==> r[j] == cubes[j]
    {
      r := r[k := r[k].(scale := 1.0, pz := 0.0)];
      k := k + 1;
    }
  }

  function ParkGrid(g: Grid): Grid
  {
    Grid(g.name, ParkAll(g.cubes))
  }

  function RevealGridValue(g: Grid): Grid
  {
    Grid(g.name, RevealAll(g.cubes))
  }

  /** The grids after the initial hiding: every grid not named `keep` parked, the others untouched. */
  function ParkAllExcept(gs: seq<Grid>, keep: string): (r: seq<Grid>)
    ensures |r| == |gs|
    ensures forall i :: 0 <= i < |r| ==> r[i].name == gs[i].name && |r[i].cubes| == |gs[i].cubes|
    ensures forall i :: 0 <= i < |r| && gs[i].name == keep ==> r[i] == gs[i]
    ensures forall i, k :: 0 <= i < |r| && gs[i].name != keep && 0 <= k < |r[i].cubes| ==>
              r[i].cubes[k].scale == 0.0 && r[i].cubes[k].pz == ParkedZ && SamePlacement(r[i].cubes[k], gs[i].cubes[k])
  {
    seq(|gs|, i requires 0 <= i < |gs| => if gs[i].name != keep then ParkGrid(gs[i]) else gs[i])
  }

  /** The first index of x in s, as `Array.prototype.find` would reach it. */
  function FirstIndex(s: seq<string>, x: string): (r: Option<nat>)
    ensures r.Some? ==> r.value < |s| && s[r.value] == x && forall j :: 0 <= j < r.value ==> s[j] != x
    ensures r.None? ==> forall j :: 0 <= j < |s| ==> s[j] != x
  {
    FindFrom(s, x, 0)
  }

  function FindFrom(s: seq<string>, x: string, from: nat): (r: Option<nat>)
    requires from <= |s|
    ensures r.Some? ==> from <= r.value < |s| && s[r.value] == x && forall j :: from <= j < r.value ==> s[j] != x
    ensures r.None? ==> forall j :: from <= j < |s| ==> s[j] != x
    decreases |s| - from
  {
    if from == |s| then None
    else if s[from] == x then Some(from)
    else FindFrom(s, x, from + 1)
  }

  function Names(gs: seq<Grid>): (r: seq<string>)
    ensures |r| == |gs| && forall i :: 0 <= i < |gs| ==> r[i] == gs[i].name
  {
    seq(|gs|, i requires 0 <= i < |gs| => gs[i].name)
  }

  /** The index of the first grid with the given name, as the lookups by name find it. */
  function FindGrid(gs: seq<Grid>, name: string): (r: Option<nat>)
    ensures r.Some? ==> r.value < |gs| && gs[r.value].name == name && forall j :: 0 <= j < r.value ==> gs[j].name != name
    ensures r.None? ==> forall j :: 0 <= j < |gs| ==> gs[j].name != name
  {
    FirstIndex(Names(gs), name)
  }

  /** The grids after revealing the first grid named `name`; unchanged when there is none. */
  function RevealNamed(gs: seq<Grid>, name: string): (r: seq<Grid>)
    ensures |r| == |gs| && Names(r) == Names(gs)
    ensures (forall j :: 0 <= j < |gs| ==> gs[j].name != name) ==> r == gs
    ensures FindGrid(gs, name).Some? ==>
              var i := FindGrid(gs, name).value;
              && |r[i].cubes| == |gs[i].cubes|
              && (forall k :: 0 <= k < |r[i].cubes| ==>
                    r[i].cubes[k].scale == 1.0 && r[i].cubes[k].pz == 0.0 && SamePlacement(r[i].cubes[k], gs[i].cubes[k]))
              && (forall j :: 0 <= j < |gs| && j != i ==> r[j] == gs[j])
  {
    match FindGrid(gs, name)
    case None => gs
    case Some(i) => gs[i := RevealGridValue(gs[i])]
  }

  lemma UpdateTwice<K, V>(m: map<K, V>, k: K, a: V, b: V)
    ensures m[k := a][k := b] == m[k := b]
  {
  }

  /** A set of indices below n has at most n elements. */
  lemma {:induction false} BoundedSetSize(s: set<nat>, n: nat)
    requires forall i :: i in s ==> i < n
    ensures |s| <= n
  {
    if n > 0 {
      var rest := s - {n - 1};
      BoundedSetSize(rest, n - 1);
      assert s <= rest + {n - 1};
    } else {
      assert s == {};
    }
  }

  /** JavaScript falsiness of the previous id: null or the empty string. */
  predicate Falsy(id: Option<string>)
  {
    id.None? || id.value == ""
  }

  class Models {
    const configs: seq<Config>
    /** The UV array a fresh box geometry starts with (a three.js constant). */
    const boxUV: seq<real>
    var gridData: map<string, GridInfo>
    var grids: seq<Grid>
    var gridsLoaded: nat
    var isReady: bool
    var current: string
    /** The source's `old` field (a keyword here): the grid being hidden, or null. */
    var previous: Option<string>
    var isAnimating: bool
    /** The data-id of every button the click handler is bound to, in document order. */
    var buttons: seq<string>
    /** The grid whose hide timeline is running, if any. */
    var hiding: Option<nat>
    /** The configs whose mask image has fired its onload (an image loads once). */
    ghost var loadedMasks: set<nat>
    /** The configs whose lattice had a zero side, so that no grid was built for them. */
    ghost var failedMasks: set<nat>

    /** The loader's invariant: the counter counts built grids, readiness means all are built. */
    ghost predicate Loaded()
      reads this
    {
      && configs == Configs
      && (forall i :: i in loadedMasks ==> i < |configs|)
      && failedMasks <= loadedMasks
      && gridsLoaded == |grids|
      && gridsLoaded + |failedMasks| <= |loadedMasks|
      && (forall id :: id in gridData ==> gridData[id].Fits())
      && (isReady <==> gridsLoaded == |configs|)
      && (!isReady ==> !isAnimating && buttons == [] && hiding.None?)
    }

    /**
     * At most one switch is in flight: animating exactly while a hide
     * timeline runs, and the grid being hidden is the one named `previous`.
     */
    ghost predicate Valid()
      reads this
    {
      && Loaded()
      && (isAnimating <==> hiding.Some?)
      && (hiding.Some? ==> hiding.value < |grids|)
      && (hiding.Some? ==> previous.Some? && grids[hiding.value].name == previous.value)
    }

    constructor (boxUV: seq<real>)
      ensures Valid()
      ensures this.boxUV == boxUV && configs == Configs
      ensures gridData == map[] && grids == [] && gridsLoaded == 0 && !isReady
      ensures !isAnimating && buttons == [] && hiding.None? && loadedMasks == {} && failedMasks == {}
    {
      this.boxUV := boxUV;
      configs := Configs;
      gridData := map[];
      grids := [];
      gridsLoaded := 0;
      isReady := false;
      current := "";
      previous := None;
      isAnimating := false;
      buttons := [];
      hiding := None;
      loadedMasks := {};
      failedMasks := {};
    }

    /**
     * Readiness needs every mask: while one has not loaded, or loaded with a
     * zero-sided lattice, the object is not ready.
     */
    lemma ReadinessNeedsEveryMask(index: nat)
      requires Loaded() && index < |configs|
      requires index !in loadedMasks || index in failedMasks
      ensures !isReady
    {
      if index !in loadedMasks {
        BoundedSetSize(loadedMasks + {index}, |configs|);
      } else {
        BoundedSetSize(loadedMasks, |configs|);
      }
    }

    /**
     * The onload handler of config `index`'s mask image, W x H pixels. `data`
     * is what the canvas returns after drawing the image at the lattice size,
     * and `btns` the buttons the page holds. When a side of the lattice is
     * zero, reading the canvas back fails (a zero-sized getImageData throws)
     * and nothing is stored or built.
     */
    method MaskLoaded(index: nat, W: nat, H: nat, data: seq<Byte>, btns: seq<string>)
      requires Valid() && index < |configs| && index !in loadedMasks
      requires W > 0 || H > 0
      requires GridDims(W, H, GridSize).width > 0 && GridDims(W, H, GridSize).height > 0 ==>
               |data| == Channels * GridDims(W, H, GridSize).width * GridDims(W, H, GridSize).height
      modifies this
      ensures Valid() && loadedMasks == old(loadedMasks) + {index}
      ensures GridDims(W, H, GridSize).width == 0 || GridDims(W, H, GridSize).height == 0 ==>
                failedMasks == old(failedMasks) + {index} && NothingBuilt()
      ensures GridDims(W, H, GridSize).width > 0 && GridDims(W, H, GridSize).height > 0 ==>
                failedMasks == old(failedMasks) &&
                Built(configs[index].id, GridDims(W, H, GridSize).width, GridDims(W, H, GridSize).height, data, btns)
    {
      var dims := GridDims(W, H, GridSize);
      BoundedSetSize(loadedMasks + {index}, |configs|);
      loadedMasks := loadedMasks + {index};
      if dims.width == 0 || dims.height == 0 {
        failedMasks := failedMasks + {index};
        return;
      }
      StoreAndBuild(configs[index].id, dims.width, dims.height, data, btns);
    }

    /** Store the lattice data of a mask under its id, then create its grid. */
    method StoreAndBuild(id: string, width: nat, height: nat, data: seq<Byte>, btns: seq<string>)
      requires Loaded() && !isReady && hiding.None? && gridsLoaded + |failedMasks| < |loadedMasks|
      requires |data| == Channels * width * height
      modifies this
      ensures Valid() && loadedMasks == old(loadedMasks) && failedMasks == old(failedMasks)
      ensures Built(id, width, height, data, btns)
    {
      ghost var stored := gridData;
      var info := GridInfo(width, height, data, false);
      gridData := gridData[id := info];
      CreateGrid(id, btns);
      UpdateTwice(stored, id, info, info.(hasMaterial := true));
    }

    /** Nothing but the record of loaded masks has changed. */
    twostate predicate NothingBuilt()
      reads this
    {
      && gridData == old(gridData) && grids == old(grids) && gridsLoaded == old(gridsLoaded)
      && isReady == old(isReady) && current == old(current) && previous == old(previous)
      && isAnimating == old(isAnimating) && buttons == old(buttons) && hiding == old(hiding)
    }

    /**
     * What grid creation does to the state: the stored entry gains its
     * material, a grid with the boxes of the mask is appended, the counter
     * rises by one, and on reaching the number of configs the object becomes
     * ready and runs the interaction set-up.
     */
    twostate predicate Built(id: string, width: nat, height: nat, data: seq<Byte>, btns: seq<string>)
      reads this
    {
      && |data| == Channels * width * height
      && gridData == old(gridData)[id := GridInfo(width, height, data, true)]
      && gridsLoaded == old(gridsLoaded) + 1
      && isReady == (gridsLoaded == |configs|)
      && var built := old(grids) + [Grid(id, AllCubes(data, width, height, boxUV))];
         if isReady then
           && grids == ParkAllExcept(built, InitialId)
           && current == InitialId && previous.None? && !isAnimating && hiding.None? && buttons == btns
         else
           && grids == built
           && current == old(current) && previous == old(previous)
           && isAnimating == old(isAnimating) && hiding == old(hiding) && buttons == old(buttons)
    }

    /** Grid creation for the config whose mask data is stored under `id`. */
    method CreateGrid(id: string, btns: seq<string>)
      requires Loaded() && !isReady && hiding.None? && gridsLoaded + |failedMasks| < |loadedMasks|
      requires id in gridData
      modifies this
      ensures Valid() && loadedMasks == old(loadedMasks) && failedMasks == old(failedMasks)
      ensures Built(id, old(gridData)[id].width, old(gridData)[id].height, old(gridData)[id].data, btns)
    {
      // The video material is attached to the stored entry, which keeps its other fields.
      var info := gridData[id].(hasMaterial := true);
      gridData := gridData[id := info];
      var cubes := BuildGrid(info.data, info.width, info.height, boxUV);
      grids := grids + [Grid(id, cubes)];
      gridsLoaded := gridsLoaded + 1;
      if gridsLoaded == |configs| {
        isReady := true;
        InitInteractions(btns);
      }
    }

    /**
     * The interaction set-up: the initial grid becomes current, nothing is
     * being hidden, every box of every other grid is parked, and the click
     * handler is bound to every button found.
     */
    method InitInteractions(btns: seq<string>)
      requires Loaded() && isReady && hiding.None?
      modifies this`current, this`previous, this`isAnimating, this`buttons, this`grids
      ensures Valid()
      ensures current == InitialId && previous.None? && !isAnimating && buttons == btns
      ensures grids == ParkAllExcept(old(grids), InitialId)
    {
      current := InitialId;
      previous := None;
      isAnimating := false;
      var i := 0;
      while i < |grids|
        invariant current == InitialId && previous.None? && !isAnimating && buttons == old(buttons)
        invariant i <= |grids| == |old(grids)|
        invariant forall j :: 0 <= j < i ==> grids[j] == ParkAllExcept(old(grids), InitialId)[j]
        invariant forall j :: i <= j < |grids| ==> grids[j] == old(grids)[j]
      {
        ghost var target := ParkAllExcept(old(grids), InitialId);
        assert grids[i] == old(grids)[i];
        if grids[i].name != current {
          var parked := ParkCubes(grids[i].cubes);
          grids := grids[i := Grid(grids[i].name, parked)];
          assert grids[i] == ParkGrid(old(grids)[i]) == target[i];
        } else {
          assert grids[i] == target[i];
        }
        i := i + 1;
      }
      assert grids == ParkAllExcept(old(grids), InitialId);
      // bindEvents: with no buttons it warns and binds nothing.
      buttons := btns;
    }

    /**
     * The effect of a click on a button whose data-id is `newId`: ignored
     * while a switch is in flight or when `newId` is already current;
     * otherwise the old current grid becomes `previous`, `newId` becomes
     * current (even when no grid has that name), the grid named `newId` is
     * revealed, and the hide of the previous grid starts, or the switch ends
     * at once when there is no previous grid to hide.
     */
    twostate predicate Clicked(newId: string)
      reads this
    {
      && gridData == old(gridData) && gridsLoaded == old(gridsLoaded) && isReady == old(isReady)
      && buttons == old(buttons) && loadedMasks == old(loadedMasks) && failedMasks == old(failedMasks)
      && if old(isAnimating) || newId == old(current) then
           && grids == old(grids) && current == old(current) && previous == old(previous)
           && isAnimating == old(isAnimating) && hiding == old(hiding)
         else
           && current == newId && previous == Some(old(current))
           && grids == RevealNamed(old(grids), newId)
           && hiding == (if old(current) == "" then None else FindGrid(old(grids), old(current)))
           && isAnimating == hiding.Some?
    }

    /** The click handler of the button at `index`. */
    method Click(index: nat)
      requires Valid() && index < |buttons|
      modifies this
      ensures Valid()
      ensures Clicked(old(buttons)[index])
    {
      if isAnimating {
        return;
      }
      var newGridId := buttons[index];
      if newGridId == current {
        return;
      }
      isAnimating := true;
      previous := Some(current);
      current := newGridId;
      RevealGrid();
      HideGrid();
    }

    /** Reveal the grid named `current`; with no such grid, a warning and nothing else. */
    method RevealGrid()
      requires Loaded()
      modifies this`grids
      ensures Loaded()
      ensures grids == RevealNamed(old(grids), current)
    {
      var found := FindGrid(grids, current);
      if found.None? {
        return;
      }
      var i := found.value;
      var revealed := RevealCubes(grids[i].cubes);
      grids := grids[i := Grid(grids[i].name, revealed)];
    }

    /**
     * Start hiding the grid named `previous`. With no previous id, or no grid
     * of that name, the switch ends at once.
     */
    method HideGrid()
      requires Loaded() && isReady && isAnimating && hiding.None?
      modifies this`isAnimating, this`hiding
      ensures Valid()
      ensures hiding == (if Falsy(previous) then None else FindGrid(grids, previous.value))
      ensures isAnimating == hiding.Some?
    {
      if previous.None? || previous.value == "" {
        isAnimating := false;
        return;
      }
      var found := FindGrid(grids, previous.value);
      if found.None? {
        isAnimating := false;
        return;
      }
      hiding := found;
    }

    /**
     * The end of the hide timeline: every box of the hidden grid is snapped
     * to scale 0 at the parked depth, and a new switch may start.
     */
    method HideComplete()
      requires Valid() && hiding.Some?
      modifies this`grids, this`isAnimating, this`hiding
      ensures Valid() && !isAnimating && hiding.None?
      ensures old(previous).Some? && old(grids)[old(hiding).value].name == old(previous).value
      ensures grids == old(grids)[old(hiding).value := ParkGrid(old(grids)[old(hiding).value])]
    {
      var i := hiding.value;
      var parked := ParkCubes(grids[i].cubes);
      grids := grids[i := Grid(grids[i].name, parked)];
      isAnimating := false;
      hiding := None;
    }

    /** A programmatic switch: a click on the first button for `gridId`, or only a warning. */
    method SwitchToGrid(gridId: string)
      requires Valid() && isReady
      modifies this
      ensures Valid()
      ensures FirstIndex(old(buttons), gridId).None? ==> unchanged(this)
      ensures FirstIndex(old(buttons), gridId).Some? ==> Clicked(gridId)
    {
      var button := FirstIndex(buttons, gridId);
      if button.Some? {
        Click(button.value);
      }
    }

    /** The colour of the current grid, with the fallback for an id without one. */
    function CurrentColor(): (c: string)
      reads this
      ensures current in ColorMap ==> c == ColorMap[current]
      ensures current !in ColorMap ==> c == FallbackColor
      ensures c == FallbackColor <==> current !in ColorMap
    {
      ColorFor(current)
    }
  }

  /**
   * Two clicks in a row, heart to codrops and then codrops to smile before the
   * hide has completed: the second is rejected and the switch to codrops
   * stays in flight.
   */
  method SecondClickRejected(m: Models)
    requires m.Valid() && m.isReady && !m.isAnimating && m.current == "heart"
    requires m.buttons == ["heart", "codrops", "smile"]
    requires Names(m.grids) == ["heart", "codrops", "smile"]
    modifies m
    ensures m.current == "codrops" && m.previous == Some("heart") && m.isAnimating && m.hiding == Some(0)
  {
    m.Click(1);
    assert m.current == "codrops" && m.isAnimating;
    m.Click(2);
  }
}
