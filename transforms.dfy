/**
 * The two transform objects (a Gaussian-filtered and a rotated copy of a
 * DICOM slice), the comparison of their patient positions, the check of
 * an input folder and the residues the program writes. Each setter of the
 * Python objects is a method; what it does to an object's state is given
 * by a pure step function, about which the properties are stated.
 */
module Transforms {
  import opened Wrappers
  import opened Text
  import opened Pixels
  import opened DicomIO

  /** gaussian_filter(image, sigma); nothing is assumed of it beyond returning a valid array. */
  type Smoother = (Image, real) -> Image

  const DefaultSigma: real := 3.0
  const DefaultAngle: int := 180
  const DefaultImageCount: int := 2

  /** The array attributes hold before any setter has run. */
  const EmptyImage: Image := PixelArray(IntType(false, W8), 0, 0, [])

  // ---------------------------------------------------------------------
  // The setters shared by both objects, as steps on their state.

  /** The result of the ipp setter: the new position and the error it raised, if any. */
  datatype IppUpdate = IppUpdate(ipp: seq<real>, err: Option<Error>)

  /** self.ipp = metadata: the position is parsed from the header, or stays as it was when that raises. */
  function IppSetter(ipp: seq<real>, metadata: map<string, string>): (u: IppUpdate)
    ensures u.err.None? <==> GetIpp(metadata).Success?
    ensures u.err.None? ==> u.ipp == GetIpp(metadata).value
    ensures u.err.Some? ==> u.ipp == ipp && u.err.value == GetIpp(metadata).error
  {
    match GetIpp(metadata)
    case Success(p) => IppUpdate(p, None)
    case Failure(e) => IppUpdate(ipp, Some(e))
  }

  /** The result of the original setter on the pair (original, ipp). */
  datatype OriginalUpdate = OriginalUpdate(original: Image, ipp: seq<real>, err: Option<Error>)

  /**
   * self.original = path: loads the file; on success stores the slice and
   * then runs the ipp setter on the same file's header. A failed load
   * changes nothing; a header without a readable position leaves the new
   * slice in place beside the old position.
   */
  function OriginalSetter(original: Image, ipp: seq<real>, fs: FileSystem, path: string): (u: OriginalUpdate)
    ensures GetDcmItkImg(fs, path).Failure? ==>
              u == OriginalUpdate(original, ipp, Some(GetDcmItkImg(fs, path).error))
    ensures GetDcmItkImg(fs, path).Success? ==>
              var loaded := GetDcmItkImg(fs, path).value;
              && u.original == loaded.pixels
              && (u.err.None? <==> GetIpp(loaded.metadata).Success?)
              && (u.err.None? ==> u.ipp == GetIpp(loaded.metadata).value)
              && (u.err.Some? ==> u.ipp == ipp && u.err == Some(GetIpp(loaded.metadata).error))
    ensures u.err.None? ==> exists loaded :: GetDcmItkImg(fs, path) == Success(loaded)
                                             && u.original == loaded.pixels
                                             && GetIpp(loaded.metadata) == Success(u.ipp)
  {
    match GetDcmItkImg(fs, path)
    case Failure(e) => OriginalUpdate(original, ipp, Some(e))
    case Success(loaded) =>
      var p := IppSetter(ipp, loaded.metadata);
      OriginalUpdate(loaded.pixels, p.ipp, p.err)
  }

  // ---------------------------------------------------------------------
  // DcmFilter.

  /** The attributes of a DcmFilter: _original, _ipp, _filtered. */
  datatype FilterState = FilterState(original: Image, ipp: seq<real>, filtered: Image)

  /**
   * DcmFilter(path, sigma): the original setter, then the filtered
   * setter; any error raised aborts the construction.
   */
  function NewFilter(fs: FileSystem, path: string, sigma: real, smooth: Smoother): (r: Result<FilterState, Error>)
  {
    var u := OriginalSetter(EmptyImage, [], fs, path);
    if u.err.Some? then Failure(u.err.value)
    else Success(FilterState(u.original, u.ipp, smooth(u.original, sigma)))
  }

  /**
   * The construction succeeds exactly when the file loads and its header
   * holds a readable position; it raises the load error first, then the
   * position error; the object holds the slice, its position and the
   * smoothed slice.
   */
  lemma NewFilterSpec(fs: FileSystem, path: string, sigma: real, smooth: Smoother)
    ensures (NewFilter(fs, path, sigma, smooth).Success?
             <==> && GetDcmItkImg(fs, path).Success?
                  && GetIpp(GetDcmItkImg(fs, path).value.metadata).Success?)
    ensures GetDcmItkImg(fs, path).Failure? ==>
              NewFilter(fs, path, sigma, smooth) == Failure(GetDcmItkImg(fs, path).error)
    ensures NewFilter(fs, path, sigma, smooth).Failure? && GetDcmItkImg(fs, path).Success? ==>
              NewFilter(fs, path, sigma, smooth).error == GetIpp(GetDcmItkImg(fs, path).value.metadata).error
    ensures NewFilter(fs, path, sigma, smooth).Success? ==>
              var loaded := GetDcmItkImg(fs, path).value;
              var state := NewFilter(fs, path, sigma, smooth).value;
              && state.original == loaded.pixels
              && Success(state.ipp) == GetIpp(loaded.metadata)
              && state.filtered == smooth(loaded.pixels, sigma)
  {
  }

  class DcmFilter {
    var original: Image
    var ipp: seq<real>
    var filtered: Image

    /** The object before __init__ has run any setter. */
    constructor Blank()
      ensures View() == FilterState(EmptyImage, [], EmptyImage)
    {
      original, ipp, filtered := EmptyImage, [], EmptyImage;
    }

    function View(): FilterState
      reads this
    {
      FilterState(original, ipp, filtered)
    }

    /** The ipp setter. */
    method SetIpp(metadata: map<string, string>) returns (err: Option<Error>)
      modifies this
      ensures IppUpdate(ipp, err) == IppSetter(old(ipp), metadata)
      ensures original == old(original) && filtered == old(filtered)
    {
      var u := IppSetter(ipp, metadata);
      ipp, err := u.ipp, u.err;
    }

    /** The original setter: loads the slice, then sets ipp from the same header; filtered is left alone. */
    method SetOriginal(fs: FileSystem, path: string) returns (err: Option<Error>)
      modifies this
      ensures OriginalUpdate(original, ipp, err) == OriginalSetter(old(original), old(ipp), fs, path)
      ensures filtered == old(filtered)
    {
      var loaded := GetDcmItkImg(fs, path);
      if loaded.Failure? {
        return Some(loaded.error);
      }
      original := loaded.value.pixels;
      err := SetIpp(loaded.value.metadata);
    }

    /** The filtered setter: smooths the current original. */
    method SetFiltered(sigma: real, smooth: Smoother)
      modifies this
      ensures View() == old(View()).(filtered := smooth(old(original), sigma))
    {
      filtered := smooth(original, sigma);
    }

    /** DcmFilter(path, sigma). */
    static method Create(fs: FileSystem, path: string, sigma: real, smooth: Smoother)
      returns (r: Result<DcmFilter, Error>)
      ensures r.Success? <==> NewFilter(fs, path, sigma, smooth).Success?
      ensures r.Success? ==> fresh(r.value) && r.value.View() == NewFilter(fs, path, sigma, smooth).value
      ensures r.Failure? ==> r.error == NewFilter(fs, path, sigma, smooth).error
    {
      var f := new DcmFilter.Blank();
      var err := f.SetOriginal(fs, path);
      if err.Some? {
        return Failure(err.value);
      }
      f.SetFiltered(sigma, smooth);
      return Success(f);
    }
  }

  // ---------------------------------------------------------------------
  // DcmRotate.

  /** The attributes of a DcmRotate: _original, _ipp, _rotated. */
  datatype RotateState = RotateState(original: Image, ipp: seq<real>, rotated: Image)

  /** The result of the rotated setter. */
  datatype RotatedUpdate = RotatedUpdate(rotated: Image, err: Option<Error>)

  /**
   * self.rotated = angle: an angle that is not a multiple of 90 raises and
   * changes nothing; otherwise the original is turned angle // 90 times
   * counter-clockwise.
   */
  function RotatedSetter(original: Image, rotated: Image, angle: int): (u: RotatedUpdate)
    ensures u.err.Some? <==> angle % 90 != 0
    ensures u.err.Some? ==> u == RotatedUpdate(rotated, Some(BadAngle(angle)))
    ensures u.err.None? ==> 90 * QuarterTurns(angle) == angle && u.rotated == Rot90(original, QuarterTurns(angle))
  {
    AngleAcceptedIff(angle);
    if !AngleAccepted(angle) then RotatedUpdate(rotated, Some(BadAngle(angle)))
    else RotatedUpdate(Rot90(original, QuarterTurns(angle)), None)
  }

  /** DcmRotate(path, angle): the original setter, then the rotated setter. */
  function NewRotate(fs: FileSystem, path: string, angle: int): (r: Result<RotateState, Error>)
    ensures GetDcmItkImg(fs, path).Failure? ==> r == Failure(GetDcmItkImg(fs, path).error)
    ensures r.Success? <==> && GetDcmItkImg(fs, path).Success?
                            && GetIpp(GetDcmItkImg(fs, path).value.metadata).Success?
                            && angle % 90 == 0
    ensures (&& GetDcmItkImg(fs, path).Success?
             && GetIpp(GetDcmItkImg(fs, path).value.metadata).Failure?) ==>
              r == Failure(GetIpp(GetDcmItkImg(fs, path).value.metadata).error)
    ensures (&& r.Failure? && GetDcmItkImg(fs, path).Success?
             && GetIpp(GetDcmItkImg(fs, path).value.metadata).Success?) ==> r.error == BadAngle(angle)
    ensures r.Success? ==>
              var loaded := GetDcmItkImg(fs, path).value;
              && r.value.original == loaded.pixels
              && Success(r.value.ipp) == GetIpp(loaded.metadata)
              && r.value.rotated == Rot90(loaded.pixels, angle / 90)
  {
    var u := OriginalSetter(EmptyImage, [], fs, path);
    if u.err.Some? then Failure(u.err.value)
    else
      var v := RotatedSetter(u.original, EmptyImage, angle);
      if v.err.Some? then Failure(v.err.value)
      else Success(RotateState(u.original, u.ipp, v.rotated))
  }

  class DcmRotate {
    var original: Image
    var ipp: seq<real>
    var rotated: Image

    /** The object before __init__ has run any setter. */
    constructor Blank()
      ensures View() == RotateState(EmptyImage, [], EmptyImage)
    {
      original, ipp, rotated := EmptyImage, [], EmptyImage;
    }

    function View(): RotateState
      reads this
    {
      RotateState(original, ipp, rotated)
    }

    /** The ipp setter. */
    method SetIpp(metadata: map<string, string>) returns (err: Option<Error>)
      modifies this
      ensures IppUpdate(ipp, err) == IppSetter(old(ipp), metadata)
      ensures original == old(original) && rotated == old(rotated)
    {
      var u := IppSetter(ipp, metadata);
      ipp, err := u.ipp, u.err;
    }

    /** The original setter: loads the slice, then sets ipp from the same header; rotated is left alone. */
    method SetOriginal(fs: FileSystem, path: string) returns (err: Option<Error>)
      modifies this
      ensures OriginalUpdate(original, ipp, err) == OriginalSetter(old(original), old(ipp), fs, path)
      ensures rotated == old(rotated)
    {
      var loaded := GetDcmItkImg(fs, path);
      if loaded.Failure? {
        return Some(loaded.error);
      }
      original := loaded.value.pixels;
      err := SetIpp(loaded.value.metadata);
    }

    /** The rotated setter. */
    method SetRotated(angle: int) returns (err: Option<Error>)
      modifies this
      ensures RotatedUpdate(rotated, err) == RotatedSetter(old(original), old(rotated), angle)
      ensures original == old(original) && ipp == old(ipp)
    {
      if !AngleAccepted(angle) {
        return Some(BadAngle(angle));
      }
      rotated := Rot90(original, QuarterTurns(angle));
      err := None;
    }

    /** DcmRotate(path, angle). */
    static method Create(fs: FileSystem, path: string, angle: int) returns (r: Result<DcmRotate, Error>)
      ensures r.Success? <==> NewRotate(fs, path, angle).Success?
      ensures r.Success? ==> fresh(r.value) && r.value.View() == NewRotate(fs, path, angle).value
      ensures r.Failure? ==> r.error == NewRotate(fs, path, angle).error
    {
      var d := new DcmRotate.Blank();
      var err := d.SetOriginal(fs, path);
      if err.Some? {
        return Failure(err.value);
      }
      err := d.SetRotated(angle);
      if err.Some? {
        return Failure(err.value);
      }
      return Success(d);
    }
  }

  /** The default angle is accepted and its half turn reverses the order of the rows and of the columns. */
  lemma DefaultRotationReverses(original: Image, rotated: Image)
    ensures var u := RotatedSetter(original, rotated, DefaultAngle);
            && u.err.None?
            && u.rotated.rows == original.rows && u.rotated.cols == original.cols
            && forall i, j :: 0 <= i < original.rows && 0 <= j < original.cols ==>
                 u.rotated.data[i][j] == original.data[original.rows - 1 - i][original.cols - 1 - j]
  {
    AngleAcceptedIff(DefaultAngle);
    HalfTurn(original);
  }

  /** A multiple of 360 degrees is accepted and leaves the slice as it was. */
  lemma FullTurnsKeepOriginal(original: Image, rotated: Image, angle: int)
    requires angle % 360 == 0
    ensures RotatedSetter(original, rotated, angle) == RotatedUpdate(original, None)
  {
    assert angle == 360 * (angle / 360);
    assert angle / 90 == 4 * (angle / 360);
    AngleAcceptedIff(angle);
    Rot90Identity(original, angle / 90);
  }

  /** An accepted angle with an odd number of quarter turns swaps the row and column counts. */
  lemma OddTurnsSwapShape(original: Image, rotated: Image, angle: int)
    requires angle % 90 == 0 && (angle / 90) % 2 == 1
    ensures RotatedSetter(original, rotated, angle).rotated.rows == original.cols
    ensures RotatedSetter(original, rotated, angle).rotated.cols == original.rows
  {
  }

  // ---------------------------------------------------------------------
  // check_ipp and check_input_folder.

  /** check_ipp: the two positions are equal lists. */
  function CheckIpp(p: seq<real>, q: seq<real>): (same: bool)
    ensures same <==> |p| == |q| && forall i :: 0 <= i < |p| ==> p[i] == q[i]
  {
    p == q
  }

  lemma CheckIppReflexive(p: seq<real>)
    ensures CheckIpp(p, p)
  {
  }

  lemma CheckIppSymmetric(p: seq<real>, q: seq<real>)
    ensures CheckIpp(p, q) == CheckIpp(q, p)
  {
  }

  /** check_ipp(*objects): two objects are required; any other number raises. */
  function CheckIppOf(ipps: seq<seq<real>>): (r: Result<bool, Error>)
    ensures r.Failure? <==> |ipps| != 2
    ensures r.Failure? ==> r.error == ArityMismatch(|ipps|)
    ensures r.Success? ==> (r.value <==> CheckIpp(ipps[0], ipps[1]))
  {
    if |ipps| != 2 then Failure(ArityMismatch(|ipps|)) else Success(CheckIpp(ipps[0], ipps[1]))
  }

  /** DcmFilter(p) with the default sigma for each path, in order. */
  function Attempts(fs: FileSystem, paths: seq<string>, smooth: Smoother): (rs: seq<Result<FilterState, Error>>)
    ensures |rs| == |paths|
  {
    if paths == [] then []
    else [NewFilter(fs, paths[0], DefaultSigma, smooth)] + Attempts(fs, paths[1..], smooth)
  }

  /** The i-th attempt is the constructor call on the i-th path. */
  lemma {:induction false} AttemptsAt(fs: FileSystem, paths: seq<string>, smooth: Smoother, i: int)
    requires 0 <= i < |paths|
    ensures Attempts(fs, paths, smooth)[i] == NewFilter(fs, paths[i], DefaultSigma, smooth)
  {
    if i > 0 {
      AttemptsAt(fs, paths[1..], smooth, i - 1);
    }
  }

  /** [DcmFilter(p) for p in paths] with the default sigma. */
  function NewFilters(fs: FileSystem, paths: seq<string>, smooth: Smoother): (r: Result<seq<FilterState>, Error>)
    ensures r.Success? ==> |r.value| == |paths|
  {
    Sequence(Attempts(fs, paths, smooth))
  }

  /**
   * Building the filters succeeds exactly when every path constructs,
   * giving the states in path order; otherwise it raises the error of
   * the first path whose construction raises.
   */
  lemma NewFiltersSpec(fs: FileSystem, paths: seq<string>, smooth: Smoother)
    ensures (NewFilters(fs, paths, smooth).Success?
             <==> forall i :: 0 <= i < |paths| ==> NewFilter(fs, paths[i], DefaultSigma, smooth).Success?)
    ensures NewFilters(fs, paths, smooth).Success? ==> forall i :: 0 <= i < |paths| ==>
              Success(NewFilters(fs, paths, smooth).value[i]) == NewFilter(fs, paths[i], DefaultSigma, smooth)
    ensures NewFilters(fs, paths, smooth).Failure? ==>
              var k := FirstFailure(Attempts(fs, paths, smooth));
              && k < |paths|
              && (forall j :: 0 <= j < k ==> NewFilter(fs, paths[j], DefaultSigma, smooth).Success?)
              && NewFilter(fs, paths[k], DefaultSigma, smooth).Failure?
              && NewFilters(fs, paths, smooth).error == NewFilter(fs, paths[k], DefaultSigma, smooth).error
  {
    forall i | 0 <= i < |paths|
      ensures Attempts(fs, paths, smooth)[i] == NewFilter(fs, paths[i], DefaultSigma, smooth)
    {
      AttemptsAt(fs, paths, smooth, i);
    }
  }

  function Positions(states: seq<FilterState>): (ipps: seq<seq<real>>)
    ensures |ipps| == |states|
    ensures forall i :: 0 <= i < |states| ==> ipps[i] == states[i].ipp
  {
    seq(|states|, i requires 0 <= i < |states| => states[i].ipp)
  }

  /**
   * check_input_folder on the listed .dcm paths: first the count, then
   * one DcmFilter per path in order, then the positions must differ.
   */
  function InputFolder(fs: FileSystem, paths: seq<string>, count: int, smooth: Smoother): (r: Result<seq<FilterState>, Error>)
    ensures |paths| != count ==> r == Failure(IncorrectNumberOfImages)
    ensures r.Success? ==> |paths| == count && NewFilters(fs, paths, smooth).Success?
                           && r.value == NewFilters(fs, paths, smooth).value
    ensures r.Success? ==> |paths| == 2 && !CheckIpp(r.value[0].ipp, r.value[1].ipp)
    ensures |paths| == count && NewFilters(fs, paths, smooth).Failure? ==>
              r == Failure(NewFilters(fs, paths, smooth).error)
    ensures (&& |paths| == count == 2 && NewFilters(fs, paths, smooth).Success?
             && NewFilters(fs, paths, smooth).value[0].ipp != NewFilters(fs, paths, smooth).value[1].ipp) ==>
              r == Success(NewFilters(fs, paths, smooth).value)
  {
    if |paths| != count then Failure(IncorrectNumberOfImages)
    else
      var states :- NewFilters(fs, paths, smooth);
      var same :- CheckIppOf(Positions(states));
      if same then Failure(SameImagePositionPatient) else Success(states)
  }

  /** Two loadable files with equal positions are rejected as the same image. */
  lemma SamePositionRejected(fs: FileSystem, paths: seq<string>, smooth: Smoother)
    requires |paths| == 2 && NewFilters(fs, paths, smooth).Success?
    requires NewFilters(fs, paths, smooth).value[0].ipp == NewFilters(fs, paths, smooth).value[1].ipp
    ensures InputFolder(fs, paths, 2, smooth) == Failure(SameImagePositionPatient)
  {
  }

  /** A file listed twice is always rejected: by its load error, or as the same image. */
  lemma DuplicatePathRejected(fs: FileSystem, path: string, smooth: Smoother)
    ensures InputFolder(fs, [path, path], 2, smooth).Failure?
  {
    var r := NewFilters(fs, [path, path], smooth);
    if r.Success? {
      NewFiltersSpec(fs, [path, path], smooth);
      CheckIppReflexive(r.value[0].ipp);
      assert r.value[0] == r.value[1];
    }
  }

  /** With an expected count other than two, a folder that loads is rejected by check_ipp's arity. */
  lemma OtherCountRejected(fs: FileSystem, paths: seq<string>, count: int, smooth: Smoother)
    requires |paths| == count && count != 2 && NewFilters(fs, paths, smooth).Success?
    ensures InputFolder(fs, paths, count, smooth) == Failure(ArityMismatch(count))
  {
  }

  // ---------------------------------------------------------------------
  // main: the residues.

  /** A file the program writes: a path and the array stored there. */
  datatype Output = Output(path: string, pixels: PixelArray)

  /** Where main writes a residue: folder/residues/<name>.jpg. */
  function ResiduePath(folder: string, name: string): (path: string)
    ensures EndsWith(path, ".jpg")
  {
    JpgPath(PathJoin(PathJoin(folder, "residues"), name))
  }

  /**
   * main: the first slice minus the second, unfiltered and filtered, to be
   * written as folder/residues/unfiltered_residue.jpg and
   * folder/residues/filtered_residue.jpg.
   */
  function Residues(fs: FileSystem, folder: string, paths: seq<string>, smooth: Smoother)
    : (r: Result<seq<Output>, Error>)
    ensures r.Success? ==> InputFolder(fs, paths, DefaultImageCount, smooth).Success?
    ensures InputFolder(fs, paths, DefaultImageCount, smooth).Failure? ==>
              r == Failure(InputFolder(fs, paths, DefaultImageCount, smooth).error)
    ensures r.Success? ==>
              var s := InputFolder(fs, paths, DefaultImageCount, smooth).value;
              && |r.value| == 2
              && r.value[0].path == ResiduePath(folder, "unfiltered_residue")
              && r.value[1].path == ResiduePath(folder, "filtered_residue")
              && Success(r.value[0].pixels) == Subtract(s[0].original, s[1].original)
              && Success(r.value[1].pixels) == Subtract(s[0].filtered, s[1].filtered)
  {
    var s :- InputFolder(fs, paths, DefaultImageCount, smooth);
    match (Subtract(s[0].original, s[1].original), Subtract(s[0].filtered, s[1].filtered))
    case (Failure(e), _) => Failure(ArrayFailure(e))
    case (_, Failure(e)) => Failure(ArrayFailure(e))
    case (Success(unfiltered), Success(filtered)) =>
      Success([Output(ResiduePath(folder, "unfiltered_residue"), unfiltered),
               Output(ResiduePath(folder, "filtered_residue"), filtered)])
  }

  /**
   * When check_input_folder accepts the folder, main fails only where numpy
   * cannot subtract the slices (the unfiltered pair first), and otherwise
   * produces its two residues.
   */
  lemma ResiduesOutcome(fs: FileSystem, folder: string, paths: seq<string>, smooth: Smoother)
    requires InputFolder(fs, paths, DefaultImageCount, smooth).Success?
    ensures var s := InputFolder(fs, paths, DefaultImageCount, smooth).value;
            var unfiltered, filtered := Subtract(s[0].original, s[1].original), Subtract(s[0].filtered, s[1].filtered);
            var r := Residues(fs, folder, paths, smooth);
            && (unfiltered.Failure? ==> r == Failure(ArrayFailure(unfiltered.error)))
            && (unfiltered.Success? && filtered.Failure? ==> r == Failure(ArrayFailure(filtered.error)))
            && (unfiltered.Success? && filtered.Success? ==> r.Success?)
  {
  }

  /** For a folder name without a trailing slash the residue files are folder/residues/<name>.jpg. */
  lemma ResiduePathShape(folder: string, name: string)
    requires folder != [] && folder[|folder| - 1] != '/'
    requires name != [] && name[0] != '/' && !EndsWith(name, ".jpg")
    ensures ResiduePath(folder, name) == folder + "/residues/" + name + ".jpg"
  {
    var dir := PathJoin(folder, "residues");
    assert dir == folder + "/" + "residues";
    assert dir[|dir| - 1] == 's';
    var file := PathJoin(dir, name);
    assert file == dir + "/" + name;
    assert file == folder + "/residues/" + name;
    if |name| >= 4 {
      assert file[|file| - 4..] == name[|name| - 4..];
    } else {
      assert file[|file| - 4] in "es/";
    }
  }

  /**
   * Slices of one shape and dtype: each residue element is the first
   * slice's value minus the second's, where that fits the dtype.
   */
  lemma ResidueElement(fs: FileSystem, folder: string, paths: seq<string>, smooth: Smoother, i: int, j: int)
    requires Residues(fs, folder, paths, smooth).Success?
    requires var s := InputFolder(fs, paths, DefaultImageCount, smooth).value;
             && s[0].original.rows == s[1].original.rows && s[0].original.cols == s[1].original.cols
             && s[0].original.dtype == s[1].original.dtype
             && 0 <= i < s[0].original.rows && 0 <= j < s[0].original.cols
             && InRange(s[0].original.dtype, s[0].original.data[i][j] - s[1].original.data[i][j])
    ensures var s := InputFolder(fs, paths, DefaultImageCount, smooth).value;
            Residues(fs, folder, paths, smooth).value[0].pixels.data[i][j]
              == s[0].original.data[i][j] - s[1].original.data[i][j]
  {
    var s := InputFolder(fs, paths, DefaultImageCount, smooth).value;
    assert Promote(s[0].original.dtype, s[1].original.dtype) == Some(s[0].original.dtype);
    SubtractExact(s[0].original, s[1].original, i, j);
  }
}
