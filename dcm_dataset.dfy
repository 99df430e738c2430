/** The paired patch dataset `train_dcm_data_loader`: each item is a noisy
    image and its clean target, optionally cut into `crop_n` square patches
    taken at the same random offsets in both images. */
module DcmDataset {
  import opened Wrappers

  /** A two-dimensional array of pixels, stored row by row. Its shape is
      `(height, width)`; an array with no rows still has a width. */
  datatype Image<T> = Image(height: nat, width: nat, pixels: seq<seq<T>>) {

    /** Every row holds `width` pixels and there are `height` rows. */
    ghost predicate Valid() {
      |pixels| == height && forall i :: 0 <= i < |pixels| ==> |pixels[i]| == width
    }

    function Shape(): (nat, nat) {
      (height, width)
    }
  }

  /** The top-left corner of one patch. */
  datatype Offset = Offset(top: nat, left: nat)

  /** What one item of the dataset is: the image pair itself, or the two
      parallel lists of patches. */
  datatype Sample<T> =
    | Whole(input: Image<T>, target: Image<T>)
    | Patches(inputs: seq<Image<T>>, targets: seq<Image<T>>)

  /** Python's truth value of `crop_n`: `None` and `0` are false. */
  predicate Truthy(cropN: Option<int>) {
    cropN.Some? && cropN.value != 0
  }

  /** The bounds of a slice `a:b` with non-negative `a` and `b` on an axis of
      length `n`: both ends are clamped to `n`, and a slice that would run
      backwards is empty. */
  function Clamp(n: nat, a: nat, b: nat): (bounds: (nat, nat))
    ensures bounds.0 <= bounds.1 <= n
    ensures b <= n ==> bounds.1 - bounds.0 == if a <= b then b - a else 0
    ensures a <= n ==> bounds.0 == a
  {
    var lo := if a < n then a else n;
    var hi := if b < n then b else n;
    (lo, if lo < hi then hi else lo)
  }

  /** numpy's `img[r0:r1, c0:c1]` for non-negative bounds. */
  function Slice2D<T>(img: Image<T>, r0: nat, r1: nat, c0: nat, c1: nat): (r: Image<T>)
    requires img.Valid()
    ensures r.Valid()
    ensures r.height <= img.height && r.width <= img.width
  {
    var rows := Clamp(img.height, r0, r1);
    var cols := Clamp(img.width, c0, c1);
    Image(rows.1 - rows.0, cols.1 - cols.0,
          seq(rows.1 - rows.0, i requires 0 <= i < rows.1 - rows.0 =>
                img.pixels[rows.0 + i][cols.0..cols.1]))
  }

  /** The patch of side `size` whose top-left corner is `d`:
      `img[top:top+size, left:left+size]`. */
  function Crop<T>(img: Image<T>, d: Offset, size: nat): Image<T>
    requires img.Valid()
  {
    Slice2D(img, d.top, d.top + size, d.left, d.left + size)
  }

  /** The patches cut at `draws`, in the order they were drawn. */
  function Crops<T>(img: Image<T>, draws: seq<Offset>, size: nat): (ps: seq<Image<T>>)
    requires img.Valid()
    ensures |ps| == |draws|
  {
    if draws == [] then []
    else Crops(img, draws[..|draws| - 1], size) + [Crop(img, draws[|draws| - 1], size)]
  }

  /** `np.random.randint(0, n)` draws from `[0, n)`, so a patch of side `size`
      can be drawn from an `h` by `w` image exactly when both ranges are
      non-empty. */
  predicate CanDraw(h: nat, w: nat, size: nat) {
    size < h && size < w
  }

  /** `d` lies in the range the two draws choose from. */
  predicate InDrawRange(d: Offset, h: nat, w: nat, size: nat) {
    d.top < h - size && d.left < w - size
  }

  /** What `__getitem__` returns for the image pair `(input, target)` once the
      two lists have been indexed, given the offsets `draws` it drew. */
  ghost predicate CropOutcome<T>(input: Image<T>, target: Image<T>,
                                 cropSize: Option<nat>, cropN: Option<int>,
                                 r: Result<Sample<T>>, draws: seq<Offset>)
    requires input.Valid() && target.Valid()
  {
    if !Truthy(cropN) then
      r == Ok(Whole(input, target)) && draws == []
    else if input.Shape() != target.Shape() then
      r == Err(AssertionError) && draws == []
    else if cropN.value < 0 then
      r == Ok(Patches([], [])) && draws == []
    else if cropSize.None? then
      r == Err(TypeError) && draws == []
    else if !CanDraw(input.height, input.width, cropSize.value) then
      r == Err(ValueError) && draws == []
    else
      |draws| == cropN.value &&
      (forall d :: d in draws ==> InDrawRange(d, input.height, input.width, cropSize.value)) &&
      r == Ok(Patches(Crops(input, draws, cropSize.value), Crops(target, draws, cropSize.value)))
  }

  /** Lines 22-42 of `__getitem__`: crop `crop_n` paired patches, or hand the
      pair back when `crop_n` is false. The offsets are chosen freely within
      the ranges `randint` draws from; `draws` records them. */
  method CropPair<T>(input: Image<T>, target: Image<T>, cropSize: Option<nat>, cropN: Option<int>)
    returns (r: Result<Sample<T>>, ghost draws: seq<Offset>)
    requires input.Valid() && target.Valid()
    ensures CropOutcome(input, target, cropSize, cropN, r, draws)
  {
    draws := [];
    if !Truthy(cropN) {
      return Ok(Whole(input, target)), draws;
    }
    if input.Shape() != target.Shape() {
      return Err(AssertionError), draws;
    }
    var h, w := input.height, input.width;
    var count := if cropN.value < 0 then 0 else cropN.value;
    var cropInput: seq<Image<T>> := [];
    var cropTarget: seq<Image<T>> := [];
    var k := 0;
    while k < count
      invariant 0 <= k <= count
      invariant |draws| == k
      invariant k > 0 ==> cropSize.Some? && CanDraw(h, w, cropSize.value)
      invariant cropSize.Some? ==> forall d :: d in draws ==> InDrawRange(d, h, w, cropSize.value)
      invariant cropSize.Some? ==> cropInput == Crops(input, draws, cropSize.value)
      invariant cropSize.Some? ==> cropTarget == Crops(target, draws, cropSize.value)
      invariant cropSize.None? ==> cropInput == [] && cropTarget == []
    {
      if cropSize.None? {
        return Err(TypeError), draws;
      }
      var size := cropSize.value;
      if h <= size {
        return Err(ValueError), draws;
      }
      var top: nat :| top < h - size;
      if w <= size {
        return Err(ValueError), draws;
      }
      var left: nat :| left < w - size;
      var d := Offset(top, left);
      cropInput := cropInput + [Crop(input, d, size)];
      cropTarget := cropTarget + [Crop(target, d, size)];
      assert (draws + [d])[..k] == draws;
      draws := draws + [d];
      k := k + 1;
    }
    r := Ok(Patches(cropInput, cropTarget));
  }

  /** `p` is the `size` by `size` window of `img` whose top-left corner is
      `d`, and that window lies inside `img`. */
  ghost predicate IsWindow<T>(p: Image<T>, img: Image<T>, d: Offset, size: nat)
    requires img.Valid()
  {
    p.Valid() && p.Shape() == (size, size) &&
    d.top + size <= img.height && d.left + size <= img.width &&
    forall i, c :: 0 <= i < size && 0 <= c < size ==>
      p.pixels[i][c] == img.pixels[d.top + i][d.left + c]
  }

  /** An offset drawn from the `randint` ranges gives a full window: numpy's
      slicing truncates nothing, and the window stops short of the last row
      and the last column. */
  lemma CropIsWindow<T>(img: Image<T>, d: Offset, size: nat)
    requires img.Valid()
    requires InDrawRange(d, img.height, img.width, size)
    ensures IsWindow(Crop(img, d, size), img, d, size)
    ensures d.top + size < img.height && d.left + size < img.width
  {
  }

  /** The `j`-th patch is the one cut at the `j`-th draw. */
  lemma {:induction false} CropsAt<T>(img: Image<T>, draws: seq<Offset>, size: nat, j: nat)
    requires img.Valid()
    requires j < |draws|
    ensures Crops(img, draws, size)[j] == Crop(img, draws[j], size)
  {
    if j < |draws| - 1 {
      var prefix := draws[..|draws| - 1];
      CropsAt(img, prefix, size, j);
      assert draws[j] == prefix[j];
    }
  }

  /** Whatever the draws, a cropped item holds `crop_n` input patches and
      `crop_n` target patches (none when `crop_n` is negative), and patch `j`
      of the input and patch `j` of the target are the windows of their images
      at the same in-bounds offset, the `j`-th one drawn. */
  lemma PatchesAreAlignedWindows<T>(input: Image<T>, target: Image<T>,
                                    cropSize: Option<nat>, cropN: Option<int>,
                                    r: Result<Sample<T>>, draws: seq<Offset>)
    requires input.Valid() && target.Valid()
    requires CropOutcome(input, target, cropSize, cropN, r, draws)
    requires r.Ok? && r.value.Patches?
    ensures Truthy(cropN) && input.Shape() == target.Shape()
    ensures |r.value.inputs| == |r.value.targets| == |draws| ==
            if cropN.value < 0 then 0 else cropN.value
    ensures draws != [] ==> cropSize.Some?
    ensures forall j :: 0 <= j < |draws| ==>
              InDrawRange(draws[j], input.height, input.width, cropSize.value) &&
              IsWindow(r.value.inputs[j], input, draws[j], cropSize.value) &&
              IsWindow(r.value.targets[j], target, draws[j], cropSize.value)
  {
    if draws != [] {
      var size := cropSize.value;
      forall j | 0 <= j < |draws|
        ensures InDrawRange(draws[j], input.height, input.width, size)
        ensures IsWindow(r.value.inputs[j], input, draws[j], size)
        ensures IsWindow(r.value.targets[j], target, draws[j], size)
      {
        assert draws[j] in draws;
        CropsAt(input, draws, size, j);
        CropsAt(target, draws, size, j);
        CropIsWindow(input, draws[j], size);
        CropIsWindow(target, draws[j], size);
      }
    }
  }

  /** `train_dcm_data_loader`: the image lists and the cropping settings, as
      given to `__init__` (both settings default to `None`). */
  datatype DcmLoader<T> = DcmLoader(inputs: seq<Image<T>>, targets: seq<Image<T>>,
                                    cropSize: Option<nat>, cropN: Option<int>) {

    /** Every image is a two-dimensional array. */
    ghost predicate Valid() {
      (forall i :: 0 <= i < |inputs| ==> inputs[i].Valid()) &&
      (forall i :: 0 <= i < |targets| ==> targets[i].Valid())
    }

    /** `__len__`: the non-negative indices `__getitem__` accepts on the input
        list are exactly those below the length. */
    function Len(): (n: nat)
      ensures forall idx :: 0 <= idx ==> (PyIndex(inputs, idx).Ok? <==> idx < n)
    {
      |inputs|
    }

    /** `__getitem__(idx)`: index both lists, then crop the pair. */
    method GetItem(idx: int) returns (r: Result<Sample<T>>, ghost draws: seq<Offset>)
      requires Valid()
      ensures PyIndex(inputs, idx).Err? || PyIndex(targets, idx).Err? ==> r == Err(IndexError)
      ensures PyIndex(inputs, idx).Ok? && PyIndex(targets, idx).Ok? ==>
                CropOutcome(PyIndex(inputs, idx).value, PyIndex(targets, idx).value,
                            cropSize, cropN, r, draws)
    {
      var input := PyIndex(inputs, idx);
      if input.Err? {
        return Err(IndexError), [];
      }
      var target := PyIndex(targets, idx);
      if target.Err? {
        return Err(IndexError), [];
      }
      r, draws := CropPair(input.value, target.value, cropSize, cropN);
    }
  }
}
