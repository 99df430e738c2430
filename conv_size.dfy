/** `after_conv_size_c`, nested in `Discriminator_CNN.__init__`: the side of
    a square feature map after a chain of unpadded convolutions, each with
    its own kernel size and stride. */
module ConvSize {
  import opened Wrappers

  /** Python's `a // b`: the quotient rounded toward minus infinity. Dafny's
      `/` rounds so that the remainder is non-negative, which agrees with it
      for a positive divisor only. */
  function FloorDiv(a: int, b: int): int
    requires b != 0
  {
    if b > 0 then a / b else (-a) / (-b)
  }

  /** `FloorDiv(a, b)` is the floor of the rational `a / b`, stated without
      division: the largest `q` with `q * b <= a` for a positive `b`, and
      with `q * b >= a` for a negative one. */
  lemma FloorDivIsFloor(a: int, b: int)
    requires b != 0
    ensures b > 0 ==> FloorDiv(a, b) * b <= a < FloorDiv(a, b) * b + b
    ensures b < 0 ==> FloorDiv(a, b) * b >= a > FloorDiv(a, b) * b + b
  {
  }

  /** One layer: `(cal - k) // s + 1`, which fails when the stride is 0. */
  function ConvLayer(cal: int, k: int, s: int): Result<int> {
    if s == 0 then Err(ZeroDivisionError) else Ok(FloorDiv(cal - k, s) + 1)
  }

  /** The layers applied left to right, starting from `cal`: layer `i` uses
      kernel `ks[i]` and stride `ss[i]`, and a stride list shorter than the
      kernel list fails on the first missing stride. */
  function ConvChain(cal: int, ks: seq<int>, ss: seq<int>): Result<int>
    decreases |ks|
  {
    if ks == [] then Ok(cal)
    else if ss == [] then Err(IndexError)
    else
      match ConvLayer(cal, ks[0], ss[0])
      case Err(e) => Err(e)
      case Ok(next) => ConvChain(next, ks[1..], ss[1..])
  }

  /** The value `after_conv_size_c` returns: both lists must have a first
      element, and the chain runs over all the kernels. */
  function ConvOutputSize(inputSize: int, ks: seq<int>, ss: seq<int>): Result<int> {
    if ks == [] || ss == [] then Err(IndexError) else ConvChain(inputSize, ks, ss)
  }

  /** `after_conv_size_c(input_size, kernel_size_list, stride_list)`. */
  method AfterConvSize(inputSize: int, ks: seq<int>, ss: seq<int>) returns (r: Result<int>)
    ensures r == ConvOutputSize(inputSize, ks, ss)
  {
    if |ks| == 0 || |ss| == 0 {
      return Err(IndexError);
    }
    if ss[0] == 0 {
      return Err(ZeroDivisionError);
    }
    var cal := FloorDiv(inputSize - ks[0], ss[0]) + 1;
    var i := 1;
    while i < |ks|
      invariant 1 <= i <= |ks| && i <= |ss|
      invariant ConvChain(inputSize, ks, ss) == ConvChain(cal, ks[i..], ss[i..])
    {
      if i >= |ss| {
        return Err(IndexError);
      }
      if ss[i] == 0 {
        return Err(ZeroDivisionError);
      }
      cal := FloorDiv(cal - ks[i], ss[i]) + 1;
      i := i + 1;
    }
    r := Ok(cal);
  }

  /** Running a chain is running its first part and then its second part on
      the result: the left fold splits at any layer. */
  lemma {:induction false} ConvChainSplit(cal: int, ks1: seq<int>, ks2: seq<int>, ss1: seq<int>, ss2: seq<int>)
    requires |ks1| == |ss1|
    decreases |ks1|
    ensures ConvChain(cal, ks1 + ks2, ss1 + ss2) ==
            match ConvChain(cal, ks1, ss1)
            case Err(e) => Err(e)
            case Ok(mid) => ConvChain(mid, ks2, ss2)
  {
    if ks1 != [] {
      assert (ks1 + ks2)[1..] == ks1[1..] + ks2;
      assert (ss1 + ss2)[1..] == ss1[1..] + ss2;
      match ConvLayer(cal, ks1[0], ss1[0])
      case Err(e) =>
      case Ok(next) => ConvChainSplit(next, ks1[1..], ks2, ss1[1..], ss2);
    } else {
      assert ks1 + ks2 == ks2 && ss1 + ss2 == ss2;
    }
  }

  /** With a positive stride and a kernel that fits, a layer outputs the
      number of kernel positions `0, s, 2s, ...` that fit inside the input:
      the last counted position fits and the next one does not. */
  lemma ConvLayerCountsPositions(cal: int, k: int, s: int)
    requires s > 0 && k <= cal
    ensures ConvLayer(cal, k, s).Ok?
    ensures var n := ConvLayer(cal, k, s).value;
              1 <= n && (n - 1) * s + k <= cal < n * s + k
  {
  }

  /** A chain of layers with positive strides and kernels of side at least 1
      never enlarges a non-negative size. */
  lemma {:induction false} ConvChainNeverGrows(cal: int, ks: seq<int>, ss: seq<int>)
    requires |ks| <= |ss|
    decreases |ks|
    requires forall i :: 0 <= i < |ks| ==> ks[i] >= 1 && ss[i] >= 1
    ensures ConvChain(cal, ks, ss).Ok?
    ensures ConvChain(cal, ks, ss).value <= if cal < 0 then 0 else cal
  {
    if ks != [] {
      var next := FloorDiv(cal - ks[0], ss[0]) + 1;
      FloorDivIsFloor(cal - ks[0], ss[0]);
      assert next <= if cal < 0 then 0 else cal;
      ConvChainNeverGrows(next, ks[1..], ss[1..]);
    }
  }

  /** The discriminator's six 3x3 convolutions with strides 1, 2, 1, 2, 1, 2
      turn a 55-pixel patch into a 4 by 4 map, so its first linear layer has
      `256 * 4 * 4` inputs. */
  lemma DiscriminatorFcSize()
    ensures ConvOutputSize(55, [3, 3, 3, 3, 3, 3], [1, 2, 1, 2, 1, 2]) == Ok(4)
  {
  }
}
