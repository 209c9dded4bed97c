# DICOM slice filtering, rotation and residues — a Dafny model

The program reads two-dimensional DICOM slices and builds two kinds of
transform object on top of them:

- `DcmFilter` holds the slice, its Image Position (Patient) and a
  Gaussian-smoothed copy.
- `DcmRotate` holds the slice, its position and a copy turned by a
  multiple of 90 degrees.

`check_input_folder` demands the expected number of `.dcm` files. It
builds one `DcmFilter` per file and rejects two files whose positions are
equal. `main` then takes the first slice minus the second, unfiltered and
filtered, and names the two `.jpg` files it writes.

This project models that logic in six modules:

| file | module | what it holds |
|---|---|---|
| `wrappers.dfy` | `Wrappers` | `Option`, `Result`, and `Sequence`: a list comprehension whose steps may raise |
| `text.dfy` | `Text` | `str.strip`, `str.split`, `str.endswith`, POSIX `os.path.join` |
| `numbers.dfy` | `Numbers` | `float()` on decimal literals, read as exact decimals, with a round-trip proof |
| `pixels.dfy` | `Pixels` | integer pixel arrays with a numpy dtype; `np.rot90`; numpy's `a - b` (promotion, broadcasting, wrap-around) |
| `dicom.dfy` | `DicomIO` | error variants, the loader (`_check_path_file`, `_get_dcm_itk_img`, `get_dcm_metadata`), `_get_ipp`, the angle test, the `.jpg` rule |
| `transforms.dfy` | `Transforms` | classes `DcmFilter` and `DcmRotate` with their setters, `check_ipp`, `check_input_folder`, the residues of `main` |

**File system.** It is a map from path to what SimpleITK would find there:

- a readable image (its first axial slice and its header entries, in order), or
- a file it cannot read.

**Errors.** The assertions and exceptions of the source are an `Error`
datatype, carried in a `Result`.

**The two classes.** Each setter of the Python classes is a method. Its
effect on the object is a pure step function, and the properties are
proved about those functions:

| step function | setter |
|---|---|
| `IppSetter` | `ipp` |
| `OriginalSetter` | `original` |
| `RotatedSetter` | `rotated` |

A constructor (`Create`) runs the setters in the source's order. Its
result is tied to `NewFilter` / `NewRotate`.

**The Gaussian filter.** `scipy.ndimage.gaussian_filter` is a function
parameter `smooth`.

## Model

| member | source | states |
|---|---|---|
| Wrappers.Sequence | src/dicomhandling.py:230 | A comprehension whose steps may raise succeeds exactly when no step raises, and then gives every value in order. Otherwise it raises the error of the first step that raises. |
| Text.Strip | src/dicomhandling.py:99 | `str.strip()` leaves no whitespace (Python's `isspace` set) at either end and never lengthens the text. |
| Text.StripUnique | src/dicomhandling.py:99 | Whitespace, then a text without surrounding whitespace, then whitespace, strips to exactly that text. |
| Text.StripIdempotent | src/dicomhandling.py:99 | Stripping twice is stripping once. |
| Text.Split | src/dicomhandling.py:99 | `str.split(sep)` gives one more piece than there are separators, and no piece contains the separator. |
| Text.JoinSplit | src/dicomhandling.py:99 | Joining the pieces with the separator gives back the split value. |
| Text.SplitJoin | src/dicomhandling.py:99 | Separator-free pieces joined with the separator split back into exactly those pieces. |
| Text.PathJoin | src/dicomhandling.py:258 | POSIX `os.path.join(a, b)`: an absolute `b` replaces `a`. Otherwise the result ends with `b`, and one `/` is inserted unless `a` is empty or already ends with `/`. |
| Numbers.DigitsValueAppend | src/dicomhandling.py:99 | Digits `w` followed by digits `f` denote `w * 10^len(f) + f`. |
| Numbers.ScanRoundTrip | src/dicomhandling.py:99 | Specifies `Scan`/`ParseFloat`, the model of `float()`. Every decimal literal `[sign] digits [. digits] [e/E [sign] digits]`, with digits on at least one side of the point, is accepted. It is read as exactly the decimal it denotes. |
| Numbers.ScanRejectsBlank | src/dicomhandling.py:99 | An empty piece (two adjacent separators, or a blank value) is not a number, as `float('')` raises. `Scan` does no trimming of its own, because `_get_ipp` strips first. So `Scan` also rejects a text still led by a space, which `float()` itself would accept. |
| Pixels.Wrap | src/dicomhandling.py:254 | A numpy integer result is stored modulo 2^bits. It is always in the dtype's range, unchanged when it fits, and moved by one modulus when it falls just outside. |
| Pixels.Promote | src/dicomhandling.py:254 | numpy's common integer dtype holds every value of both operand dtypes. There is none exactly when uint64 meets a signed dtype. |
| Pixels.PromoteSmallest | src/dicomhandling.py:254 | The common dtype is the narrowest: no integer dtype holding both operands' ranges has fewer bits. So a residue wraps modulo 2^16 for two uint16 slices, not modulo 2^64. |
| Pixels.QuarterAt | src/dicomhandling.py:183 | Specifies `Quarter`, one counter-clockwise quarter turn: it places `a[j][cols-1-i]` at `(i, j)`. |
| Pixels.Rot90 | src/dicomhandling.py:183 | `np.rot90(a, k)` keeps the dtype. An odd `k` swaps rows and columns; an even `k` keeps them. |
| Pixels.TurnsShape | src/dicomhandling.py:183 | Specifies the shape of `Turns`, `n` quarter turns: an even `n` keeps the extents, an odd `n` swaps them. |
| Pixels.HalfTurn | src/dicomhandling.py:183 | `np.rot90(a, 2)` reverses both the row order and the column order. |
| Pixels.FullTurn | src/dicomhandling.py:183 | Four quarter turns give back the array. |
| Pixels.ThreeQuarterTurn | src/dicomhandling.py:183 | `np.rot90(a, 3)` is one clockwise turn: element `(i, j)` is `a[rows-1-j][i]`. |
| Pixels.Rot90Identity | src/dicomhandling.py:183 | A turn count that is a multiple of 4 gives back the array. |
| Pixels.TurnsAdd | src/dicomhandling.py:183 | `m` quarter turns followed by `n` are `m + n` quarter turns. |
| Pixels.TurnsMod | src/dicomhandling.py:183 | Turn counts below four add modulo four. |
| Pixels.Rot90Compose | src/dicomhandling.py:183 | Turning by `j`, then by `k`, is turning by `j + k`, for any integers, negative ones included. |
| Pixels.Rot90Inverse | src/dicomhandling.py:183 | Turning by `-k` undoes a turn by `k`. |
| Pixels.Broadcast | src/dicomhandling.py:254 | Two extents broadcast exactly when they are equal or one of them is 1. The broadcast extent is the common one, or the other extent when one side is 1. |
| Pixels.Subtract | src/dicomhandling.py:254 | `a - b` on two valid arrays gives a valid array. |
| Pixels.SubtractFails | src/dicomhandling.py:254 | `a - b` raises exactly when a pair of extents does not broadcast, or when no integer dtype holds both operands. |
| Pixels.SubtractAt | src/dicomhandling.py:254 | For arrays of one shape, `a - b` has that shape and the promoted dtype. Element `(i, j)` is `a[i][j] - b[i][j]`, wrapped into that dtype. |
| Pixels.SubtractBroadcast | src/dicomhandling.py:254-255 | For any shapes `a - b` accepts, the result has the broadcast extents and the promoted dtype. Element `(i, j)` is the wrapped difference of the operands' elements, where an extent of 1 repeats its single row or column. |
| Pixels.SubtractExact | src/dicomhandling.py:254 | Where the exact difference fits the result dtype, the residue holds it. |
| Pixels.SubtractUnsignedWraps | src/dicomhandling.py:254 | On unsigned arrays of one dtype, a smaller minus a larger value wraps to the difference plus 2^bits. |
| Pixels.SubtractSelf | src/dicomhandling.py:254 | An array minus itself is all zeros, in its own dtype. |
| DicomIO.MetadataKeys | src/dicomhandling.py:75 | Specifies `GetDcmMetadata`: the metadata dictionary's keys are exactly the header's tags. |
| DicomIO.MetadataValues | src/dicomhandling.py:75 | Each tag maps to the value of its last header entry. |
| DicomIO.CheckPathFile | src/dicomhandling.py:77-79 | Succeeds exactly when the path exists, and returns the path. Otherwise it raises the "does not exists" error naming the path. |
| DicomIO.GetDcmItkImg | src/dicomhandling.py:81-96 | Checks in order: the path must exist, then the file must be readable by SimpleITK, then its header must hold at least one entry. It succeeds exactly when all three hold, returning the first slice and the full, non-empty metadata dictionary. |
| DicomIO.ParseAllSpec | src/dicomhandling.py:99 | Specifies `ParseAll`, the comprehension `[float(t) for t in texts]`. It succeeds exactly when every text is a number, with the values in order. Otherwise it raises the `ValueError` of the first rejected text. |
| DicomIO.GetIpp | src/dicomhandling.py:98-99 | A header without the Image Position (Patient) tag raises `KeyError`. Otherwise the value is split at every backslash and each piece is stripped and parsed. On success there is one component per piece, and their number is not checked. |
| DicomIO.PiecesOfLiterals | src/dicomhandling.py:99 | Splitting whitespace-padded, backslash-joined literals and stripping the pieces gives the literals back. |
| DicomIO.ParseRenders | src/dicomhandling.py:99 | Parsing rendered literals gives their values. |
| DicomIO.GetIppOfLiterals | src/dicomhandling.py:98-99 | A position value made of padded decimal literals separated by backslashes yields exactly their values, in order, however many there are. |
| DicomIO.AngleAcceptedIff | src/dicomhandling.py:182 | Specifies `AngleAccepted`: for an integer angle, `angle/90 == angle//90` holds exactly when the angle is a multiple of 90. |
| DicomIO.QuarterTurns | src/dicomhandling.py:183 | `angle//90` is the floor quotient: `90k <= angle < 90k + 90`. It is exact for an accepted angle. |
| DicomIO.JpgPath | src/dicomhandling.py:58 | The file name always ends with `.jpg`. A name already ending with `.jpg` is kept; any other gets exactly `.jpg` appended. |
| DicomIO.JpgPathIdempotent | src/simple_tests.py:11-12 | Both spellings of a name (with and without `.jpg`) give the same file, because normalising twice is normalising once. |
| Transforms.IppSetter | src/dicomhandling.py:142-144 | The ipp setter stores the parsed position exactly when `_get_ipp` succeeds. When it raises, the old position stays and that error is raised. |
| Transforms.OriginalSetter | src/dicomhandling.py:125-129 | A failed load changes nothing and raises the load error. A successful load stores the slice, then runs the ipp setter on the same file's header. A position error therefore raises `_get_ipp`'s error and leaves the new slice beside the old position. |
| Transforms.NewFilterSpec | src/dicomhandling.py:116-118 | Specifies `NewFilter`, `DcmFilter.__init__` on values. `DcmFilter(path, sigma)` succeeds exactly when the file loads and its header has a readable position. It raises the load error first, then the position error. The object holds that file's slice, that file's position and the smoothed slice. |
| Transforms.DcmFilter.Blank | src/dicomhandling.py:116 | The object before `__init__` runs any setter. |
| Transforms.DcmFilter.SetIpp | src/dicomhandling.py:142-144 | The new `_ipp` and the raised error are those of the ipp step; `_original` and `_filtered` are unchanged. |
| Transforms.DcmFilter.SetOriginal | src/dicomhandling.py:125-129 | The new `_original`, `_ipp` and raised error are those of the original step; `_filtered` is unchanged. |
| Transforms.DcmFilter.SetFiltered | src/dicomhandling.py:134-136 | `_filtered` becomes the smoothed current `_original`; the other fields are unchanged. |
| Transforms.DcmFilter.Create | src/dicomhandling.py:116-118 | The constructor succeeds exactly when `NewFilter` does, giving a fresh object in that state, or raising that error. |
| Transforms.RotatedSetter | src/dicomhandling.py:180-183 | The rotated setter raises exactly when the angle is not a multiple of 90, and then changes nothing. Otherwise `_rotated` is the original turned `angle//90` times, where `90 * (angle//90) == angle`. |
| Transforms.NewRotate | src/dicomhandling.py:161-163 | `DcmRotate(path, angle)` raises in this order: the load error, then the position error, then the angle error. On success it holds the slice, its position and `np.rot90(slice, angle//90)`. |
| Transforms.DcmRotate.Blank | src/dicomhandling.py:161 | The object before `__init__` runs any setter. |
| Transforms.DcmRotate.SetIpp | src/dicomhandling.py:190-192 | The new `_ipp` and the raised error are those of the ipp step; `_original` and `_rotated` are unchanged. |
| Transforms.DcmRotate.SetOriginal | src/dicomhandling.py:170-174 | The new `_original`, `_ipp` and raised error are those of the original step; `_rotated` is unchanged. |
| Transforms.DcmRotate.SetRotated | src/dicomhandling.py:180-183 | The new `_rotated` and the raised error are those of the rotated step, applied to the current `_original`; `_original` and `_ipp` are unchanged. |
| Transforms.DcmRotate.Create | src/dicomhandling.py:161-163 | The constructor succeeds exactly when `NewRotate` does, giving a fresh object in that state, or raising that error. |
| Transforms.DefaultRotationReverses | src/dicomhandling.py:161-163 | The default angle of 180 is accepted. It keeps the shape and reverses the order of both the rows and the columns. |
| Transforms.FullTurnsKeepOriginal | src/dicomhandling.py:182-183 | A multiple of 360 degrees is accepted and gives back the original slice. |
| Transforms.OddTurnsSwapShape | src/simple_tests.py:15-16 | An accepted angle with an odd quarter-turn count (270, for instance) swaps the row and column counts. |
| Transforms.CheckIpp | src/dicomhandling.py:205 | `check_ipp` holds exactly when the two positions have equal length and are equal element by element. |
| Transforms.CheckIppReflexive | src/simple_tests.py:23 | An object always has the same position as itself. |
| Transforms.CheckIppSymmetric | src/dicomhandling.py:205 | The comparison does not depend on argument order. |
| Transforms.CheckIppOf | src/dicomhandling.py:232 | `check_ipp(*objects)` raises the arity error exactly when the number of objects is not two. Otherwise it compares the two positions. |
| Transforms.AttemptsAt | src/dicomhandling.py:230 | The i-th constructor call of the comprehension is `DcmFilter` on the i-th path. |
| Transforms.NewFiltersSpec | src/dicomhandling.py:230 | Specifies `NewFilters`, the comprehension of `DcmFilter`s. Building the filters succeeds exactly when every path constructs, giving their states in path order. Otherwise it raises the error of the first path that fails, after all earlier paths succeeded. |
| Transforms.InputFolder | src/dicomhandling.py:220-234 | A wrong file count raises `IncorrectNumberOfImages` before any object is built. Given the right count, a constructor error reaches the caller unchanged. With two files that both construct and whose positions differ, the folder is accepted and the filters come back in path order. Any success has the right count, every path constructed, exactly two objects, and differing positions. |
| Transforms.SamePositionRejected | src/dicomhandling.py:232-233 | Two loadable files with equal positions raise `SameImagePositionPatient`. |
| Transforms.DuplicatePathRejected | src/dicomhandling.py:230-233 | A folder listing the same file twice is always rejected: either by that file's error or as the same image. |
| Transforms.OtherCountRejected | src/dicomhandling.py:232 | With an expected count other than two, a folder that loads is rejected by `check_ipp`'s arity. |
| Transforms.ResiduePath | src/dicomhandling.py:261-262 | A residue's file name always ends with `.jpg`. |
| Transforms.ResiduePathShape | src/dicomhandling.py:258-262 | For a folder name without a trailing slash, the residues go to `folder/residues/<name>.jpg`. |
| Transforms.Residues | src/dicomhandling.py:251-262 | A folder that `check_input_folder` rejects makes `main` fail with that error. A success means the folder was accepted. It then writes two arrays: the first original minus the second, to `.../unfiltered_residue.jpg`, and the first filtered minus the second, to `.../filtered_residue.jpg`. |
| Transforms.ResiduesOutcome | src/dicomhandling.py:254-255 | For an accepted folder, `main` raises numpy's error when the unfiltered slices cannot be subtracted. When only the filtered slices cannot be subtracted, it raises that error. When both subtract, it produces its residues. |
| Transforms.ResidueElement | src/dicomhandling.py:254-255 | For two slices of one shape and dtype, each unfiltered residue element is the first slice's value minus the second's, wherever the difference fits the dtype. |

## Left out

- SimpleITK I/O (`ReadImage`, `GetArrayFromImage`, the `[:,:,0]` slice, `GetMetaDataKeys`/`GetMetaData`) is replaced by the `FileSystem` map of slices and header entries. An unreadable file is one error variant, and its message is not SimpleITK's.
- `save_array_as_jpg` is modelled only for its file-name rule and for the array handed to it. The rescaling, the cast to uint8 and `WriteImage` are library codecs and are not modelled.
- The condition on line 60 compares the bound method `GetPixelIDValue` with an integer. It is therefore always true, and every array is rescaled. That line is not modelled because the rescale is not.
- `scipy.ndimage.gaussian_filter` is the parameter `smooth`. Nothing is assumed of it beyond returning a valid array.
- Numbers.ParseFloat: accepts only decimal literals. Python's `float()` also accepts `inf`, `nan`, `infinity`, digit-group underscores and non-ASCII decimal digits; the model rejects all of these.
- Numbers.ParseFloat: reads already stripped text, because `_get_ipp` always strips first. `float()`'s own trimming of whitespace is not modelled.
- Numbers.ParseFloat: a value is the exact decimal, not its binary double. So two different literals that round to the same double compare equal under `check_ipp` in Python but not in the model.
- DicomIO.AngleAccepted: the angle is an unbounded integer and `angle/90` is exact. Python's float division can misjudge angles beyond 2^53.
- Pixels.Promote: numpy computes uint64 combined with a signed integer array in float64. The model raises `NoIntegerType` instead, and float pixel arrays are not modelled at all.
- Pixels.Subtract: only two-dimensional arrays are modelled; other ranks are not.
- `glob.glob(os.path.join(folder, '*.dcm'))`: the list of paths is an input, in the order given.
- The existence check and `os.mkdir` of the `residues` folder are file-system effects and are not modelled.
- The `sys.argv` entry point is not modelled.
- The exception classes `SameImagePositionPatient` and `IncorrectNumberOfImages` are error variants. The texts in `DicomIO.Message` for Python's own `KeyError`, `ValueError` and `TypeError` are approximations.
- Transforms.InputFolder: it returns the state of each `DcmFilter` (`FilterState`), not the objects themselves. The identity of the returned objects is therefore not captured.
- `check_input_folder` is not modelled as a method building the objects in a loop. The comprehension is modelled on values by `NewFilters`.
- DicomIO.GetDcmMetadata: a tag listed twice in a header keeps its last value. This is an assumption about SimpleITK's key list, which normally holds each tag once.
