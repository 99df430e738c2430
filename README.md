# WGAN-VGG: patch dataset and discriminator sizing, in Dafny

The WGAN-VGG training script for low-dose CT denoising has two pieces of
logic that do not depend on the deep-learning framework. This project models
both and proves properties about them.

- **The paired patch dataset** (`train_dcm_data_loader`, module `DcmDataset`).
  Each item is a noisy image and its clean target. When `crop_n` is set,
  `__getitem__` cuts `crop_n` square patches of side `crop_size` from both
  images. Each patch has its top-left corner drawn with
  `np.random.randint`, and the same corner is used for both images. When
  `crop_n` is `None` or `0`, the pair is returned as it is. Images are
  rectangular arrays of any pixel type (`Image<T>`). numpy slicing is modelled
  with its clamping, so the proofs show that the drawn offsets never make it
  truncate. The random draws are free choices (`:|`) inside the ranges
  `randint` draws from. The method hands them back as a ghost out-parameter,
  so the contract can say which window each patch is.
- **Discriminator sizing** (`after_conv_size_c`, module `ConvSize`). It
  applies `cal -> (cal - k) // s + 1` left to right over the kernel sizes and
  strides. Python's `//` is written out as a floor division for either sign
  of the divisor. An empty list, a stride list shorter than the kernel list
  and a zero stride raise the Python exceptions the code would raise.

Python exceptions are values of `Wrappers.Result` (`IndexError`,
`AssertionError`, `TypeError`, `ValueError`, `ZeroDivisionError`).

## Model

| member | source | states |
|---|---|---|
| `Wrappers.PyIndex` | WGAN-VGG.py:19-20 | list indexing succeeds exactly for `-len <= idx < len`, then yields the element at `idx` modulo the length; otherwise it raises `IndexError` |
| `DcmDataset.Clamp` | WGAN-VGG.py:31-32 | a slice's bounds lie inside the axis; when the stop is inside the axis, the slice has length `stop - start` |
| `DcmDataset.Slice2D` | WGAN-VGG.py:31-32 | a numpy slice of a rectangular image is rectangular and no larger than the image |
| `DcmDataset.Crops` | WGAN-VGG.py:28-34 | one patch per draw |
| `DcmDataset.CropIsWindow` | WGAN-VGG.py:27-32 | an offset inside the `randint` ranges gives a full `crop_size` x `crop_size` patch equal pixel for pixel to that window of the image; the window is in bounds and never reaches the last row or the last column |
| `DcmDataset.CropsAt` | WGAN-VGG.py:28-34 | patch `j` is the one cut at draw `j`: the order of drawing is kept |
| `DcmDataset.CropPair` | WGAN-VGG.py:22-42 | falsy `crop_n` returns the pair untouched; different shapes fail the assertion; a negative `crop_n` gives empty lists; a missing `crop_size` raises `TypeError` and `h <= crop_size` or `w <= crop_size` raises `ValueError` (only when at least one draw is made); otherwise `crop_n` draws inside the ranges and the input and target patches are cut at those same draws |
| `DcmDataset.PatchesAreAlignedWindows` | WGAN-VGG.py:23-36 | a cropped item has exactly `crop_n` input patches and `crop_n` target patches (none for a negative `crop_n`), the images have equal shape, and input patch `j` and target patch `j` are the in-bounds windows at the same draw `j` |
| `DcmDataset.DcmLoader.GetItem` | WGAN-VGG.py:18-42 | an index outside either list raises `IndexError`; otherwise the pair at that index is cropped as `CropPair` states |
| `DcmDataset.DcmLoader.Len` | WGAN-VGG.py:44-45 | the non-negative indices accepted on the input list are exactly those below the length |
| `ConvSize.FloorDivIsFloor` | WGAN-VGG.py:83-85 | the model of `//` is the floor of the quotient for both signs of the divisor |
| `ConvSize.AfterConvSize` | WGAN-VGG.py:82-86 | the loop returns the left fold of the layer formula over the paired lists, with `IndexError` for an empty list or a missing stride and `ZeroDivisionError` for a zero stride |
| `ConvSize.ConvChainSplit` | WGAN-VGG.py:83-85 | the fold over concatenated layer lists is the fold over the first part continued with the second part |
| `ConvSize.ConvLayerCountsPositions` | WGAN-VGG.py:83 | with a positive stride and a kernel that fits, a layer's output is the number of kernel positions that fit in its input |
| `ConvSize.ConvChainNeverGrows` | WGAN-VGG.py:82-86 | with positive strides and kernels, the chain succeeds and never enlarges a non-negative size |
| `ConvSize.DiscriminatorFcSize` | WGAN-VGG.py:97 | input 55 with six 3-kernels and strides 1, 2, 1, 2, 1, 2 gives `fc_size` 4 |

## Left out

- `FeatureExtractor`, `Generator_CNN` and the layers and `forward` of `Discriminator_CNN` (WGAN-VGG.py:49-109): neural-network modules with pretrained VGG19 weights and float tensor arithmetic.
- The training loop, losses and optimizers (WGAN-VGG.py:159-217): float tensor arithmetic and autograd.
- Device selection, CUDA and `nn.DataParallel`: GPU and parallelism plumbing.
- `DataLoader` batching, shuffling and worker processes: concurrency inside a library.
- Directory listing, directory creation and checkpoint saving: file-system I/O.
- `build_dataset` from `RED_CNN_util` is not part of this model; the image lists are taken as given.
- The random number generator: each draw is a free choice inside the range `randint` draws from, so the contracts hold for every sequence of draws.
- `np.array` stacking of the patch lists: the patches stay a sequence of images.
- Images that are not two-dimensional: `h, w = input_img.shape` assumes two dimensions, and every `Image` has exactly two.
- Negative `crop_size`: numpy's negative slice bounds are not modelled, so `crop_size` is a natural number or `None`.
- `crop_n` and `crop_size` of types other than integers or `None`.
- Running Python with `-O`, which skips the equal-shape assertion: the model always checks it.
- Pixel values are of an arbitrary type, because cropping only copies them.
