/**
 * Reading a DICOM slice and its header, pulling the Image Position
 * (Patient) out of the header, and the small checks the transform
 * objects rely on: the rotation angle test and the ".jpg" suffix rule.
 * The file system is a map from path to what SimpleITK would find there.
 */
module DicomIO {
  import opened Wrappers
  import opened Text
  import opened Numbers
  import opened Pixels

  /** The DICOM tag (group|element) of Image Position (Patient). */
  const PositionTag: string := "0020|0032"

  /** The separator of a multi-valued DICOM decimal string. */
  const ValueSeparator: char := '\\'

  /** Everything the core raises, one variant per exception or assertion. */
  datatype Error =
    | PathNotFound(path: string)
    | ReadFailed(path: string)
    | NoMetadata
    | MissingTag(tag: string)
    | NotANumber(text: string)
    | BadAngle(angle: int)
    | IncorrectNumberOfImages
    | SameImagePositionPatient
    | ArityMismatch(given: nat)
    | ArrayFailure(reason: ArrayError)

  /** The message each error carries (the source's wording, spelling included). */
  function Message(e: Error): string {
    match e
    case PathNotFound(path) => path + " does not exists"
    case ReadFailed(path) => "Unable to read " + path
    case NoMetadata => "The image is not a DICOM or there is not metadata"
    case MissingTag(tag) => tag
    case NotANumber(text) => "could not convert string to float: " + text
    case BadAngle(_) => "The roatation angle is not a multiple of 90°"
    case IncorrectNumberOfImages => "Incorrect number of images. Aborting."
    case SameImagePositionPatient => "The DICOM files appear to be the same. Aborting."
    case ArityMismatch(_) => "check_ipp() takes 2 positional arguments"
    case ArrayFailure(ShapeMismatch) => "operands could not be broadcast together"
    case ArrayFailure(NoIntegerType) => "no common integer type"
  }

  /**
   * What SimpleITK reads from a file: the first axial slice as an array
   * and the header entries (tag, value) in the order it lists them.
   */
  datatype ItkImage = ItkImage(slice: Image, header: seq<(string, string)>)

  /** A path holds a readable image, or a file SimpleITK cannot read. */
  datatype FileEntry = Readable(image: ItkImage) | Unreadable

  type FileSystem = map<string, FileEntry>

  /** The header as a dictionary; a tag listed twice keeps its last value. */
  function GetDcmMetadata(header: seq<(string, string)>): map<string, string>
  {
    if header == [] then map[]
    else
      var n := |header| - 1;
      GetDcmMetadata(header[..n])[header[n].0 := header[n].1]
  }

  /** The dictionary's keys are exactly the header's tags. */
  lemma {:induction false} MetadataKeys(header: seq<(string, string)>)
    ensures forall i :: 0 <= i < |header| ==> header[i].0 in GetDcmMetadata(header)
    ensures forall tag :: tag in GetDcmMetadata(header) ==> exists i :: 0 <= i < |header| && header[i].0 == tag
  {
    if header != [] {
      var n := |header| - 1;
      var prefix := header[..n];
      MetadataKeys(prefix);
      forall i | 0 <= i < n ensures header[i].0 in GetDcmMetadata(header) {
        assert prefix[i] == header[i];
      }
      forall tag | tag in GetDcmMetadata(header)
        ensures exists i :: 0 <= i < |header| && header[i].0 == tag
      {
        if tag != header[n].0 {
          var i :| 0 <= i < n && prefix[i].0 == tag;
          assert header[i] == prefix[i];
        }
      }
    }
  }

  /** Each tag maps to the value of its last entry in the header. */
  lemma {:induction false} MetadataValues(header: seq<(string, string)>, i: int)
    requires 0 <= i < |header| && LastOccurrence(header, i)
    ensures header[i].0 in GetDcmMetadata(header)
    ensures GetDcmMetadata(header)[header[i].0] == header[i].1
  {
    var n := |header| - 1;
    if i < n {
      var prefix := header[..n];
      assert prefix[i] == header[i];
      assert header[n].0 != header[i].0;
      assert LastOccurrence(prefix, i) by {
        forall j | i < j < n ensures prefix[j].0 != prefix[i].0 {
          assert prefix[j] == header[j];
        }
      }
      MetadataValues(prefix, i);
    }
  }

  /** Entry i is the last one in the header with its tag. */
  predicate LastOccurrence(header: seq<(string, string)>, i: int)
    requires 0 <= i < |header|
  {
    forall j :: i < j < |header| ==> header[j].0 != header[i].0
  }

  /** os.path.exists with an assertion: the path itself, or the "does not exists" error. */
  function CheckPathFile(fs: FileSystem, path: string): (r: Result<string, Error>)
    ensures r.Success? <==> path in fs
    ensures r.Success? ==> r.value == path
    ensures r.Failure? ==> r.error == PathNotFound(path)
  {
    if path in fs then Success(path) else Failure(PathNotFound(path))
  }

  /** The slice and the full header dictionary of a loaded file. */
  datatype Loaded = Loaded(pixels: Image, metadata: map<string, string>)

  /**
   * Loads a DICOM file: the path must exist, then the file must be
   * readable, then its header must hold at least one entry.
   */
  function GetDcmItkImg(fs: FileSystem, path: string): (r: Result<Loaded, Error>)
    ensures path !in fs ==> r == Failure(PathNotFound(path))
    ensures path in fs && fs[path].Unreadable? ==> r == Failure(ReadFailed(path))
    ensures path in fs && fs[path].Readable? && fs[path].image.header == [] ==> r == Failure(NoMetadata)
    ensures r.Success? <==> path in fs && fs[path].Readable? && fs[path].image.header != []
    ensures r.Success? ==> (&& r.value.pixels == fs[path].image.slice
                            && r.value.metadata == GetDcmMetadata(fs[path].image.header)
                            && |r.value.metadata| > 0)
  {
    var checked :- CheckPathFile(fs, path);
    match fs[checked]
    case Unreadable => Failure(ReadFailed(checked))
    case Readable(image) =>
      if |image.header| == 0 then Failure(NoMetadata)
      else
        var m := GetDcmMetadata(image.header);
        MetadataKeys(image.header);
        assert image.header[0].0 in m;
        Success(Loaded(image.slice, m))
  }

  /** float(text) of each text, in order, with the ValueError it raises on a text that is not a number. */
  function ParseEach(texts: seq<string>): (parsed: seq<Result<real, Error>>)
    ensures |parsed| == |texts|
    ensures forall i :: 0 <= i < |texts| ==>
              parsed[i] == match ParseFloat(texts[i])
                           case Some(x) => Success(x)
                           case None => Failure(NotANumber(texts[i]))
  {
    seq(|texts|, i requires 0 <= i < |texts| =>
      match ParseFloat(texts[i])
      case Some(x) => Success(x)
      case None => Failure(NotANumber(texts[i])))
  }

  /** [float(t) for t in texts]. */
  function ParseAll(texts: seq<string>): (r: Result<seq<real>, Error>)
    ensures r.Success? ==> |r.value| == |texts|
  {
    Sequence(ParseEach(texts))
  }

  /**
   * The list comprehension succeeds exactly when every text is a number,
   * with the values in order; otherwise it raises the error naming the
   * first text float() rejects.
   */
  lemma ParseAllSpec(texts: seq<string>)
    ensures var k := FirstFailure(ParseEach(texts));
            && k <= |texts|
            && (forall j :: 0 <= j < k ==> ParseFloat(texts[j]).Some?)
            && (ParseAll(texts).Success? <==> k == |texts|)
            && (ParseAll(texts).Failure? ==> ParseAll(texts).error == NotANumber(texts[k]) && ParseFloat(texts[k]).None?)
    ensures ParseAll(texts).Success? ==> forall i :: 0 <= i < |texts| ==> Some(ParseAll(texts).value[i]) == ParseFloat(texts[i])
  {
  }

  /** Each piece with its surrounding whitespace removed. */
  function StripAll(pieces: seq<string>): (r: seq<string>)
    ensures |r| == |pieces|
    ensures forall i :: 0 <= i < |pieces| ==> r[i] == Strip(pieces[i])
  {
    seq(|pieces|, i requires 0 <= i < |pieces| => Strip(pieces[i]))
  }

  /**
   * The Image Position (Patient) of a header: its value split at every
   * separator, each piece stripped and read as a float. A missing tag is
   * an error; the number of components is not checked.
   */
  function GetIpp(metadata: map<string, string>, sep: char := ValueSeparator): (r: Result<seq<real>, Error>)
    ensures PositionTag !in metadata ==> r == Failure(MissingTag(PositionTag))
    ensures PositionTag in metadata ==> r == ParseAll(StripAll(Split(metadata[PositionTag], sep)))
    ensures r.Success? ==> |r.value| == Count(metadata[PositionTag], sep) + 1
  {
    if PositionTag !in metadata then Failure(MissingTag(PositionTag))
    else ParseAll(StripAll(Split(metadata[PositionTag], sep)))
  }

  /** A rendered literal has no leading or trailing whitespace and no separator. */
  lemma RenderShape(l: Literal)
    requires WellFormed(l)
    ensures Trimmed(Render(l))
    ensures ValueSeparator !in Render(l)
  {
    var r := Render(l);
    RenderChars(l);
    forall i | 0 <= i < |r| ensures r[i] != ValueSeparator && !IsSpace(r[i]) {
      assert IsLiteralChar(r[i]);
    }
  }

  /** A well-formed literal between separator-free whitespace pads is one piece that strips to the literal. */
  lemma PaddedLiteral(before: string, l: Literal, after: string)
    requires WellFormed(l) && AllSpace(before) && AllSpace(after)
    requires ValueSeparator !in before && ValueSeparator !in after
    ensures ValueSeparator !in before + Render(l) + after
    ensures Strip(before + Render(l) + after) == Render(l)
  {
    RenderShape(l);
    StripUnique(before, Render(l), after);
  }

  /** Each literal between its whitespace pads. */
  function PaddedPieces(lits: seq<Literal>, before: seq<string>, after: seq<string>): (pieces: seq<string>)
    requires |before| == |lits| && |after| == |lits|
    ensures |pieces| == |lits|
    ensures forall i :: 0 <= i < |lits| ==> pieces[i] == before[i] + Render(lits[i]) + after[i]
  {
    seq(|lits|, i requires 0 <= i < |lits| => before[i] + Render(lits[i]) + after[i])
  }

  /** The values the literals denote. */
  function Values(lits: seq<Literal>): (values: seq<real>)
    requires forall i :: 0 <= i < |lits| ==> WellFormed(lits[i])
    ensures |values| == |lits|
    ensures forall i :: 0 <= i < |lits| ==> values[i] == Denotation(lits[i]).Value()
  {
    seq(|lits|, i requires 0 <= i < |lits| => Denotation(lits[i]).Value())
  }

  /** The literals as rendered, without padding. */
  function Renders(lits: seq<Literal>): (texts: seq<string>)
    ensures |texts| == |lits|
    ensures forall i :: 0 <= i < |lits| ==> texts[i] == Render(lits[i])
  {
    seq(|lits|, i requires 0 <= i < |lits| => Render(lits[i]))
  }

  /** Splitting the joined padded literals and stripping the pieces gives the rendered literals back. */
  lemma PiecesOfLiterals(lits: seq<Literal>, before: seq<string>, after: seq<string>)
    requires |lits| > 0 && |before| == |lits| && |after| == |lits|
    requires forall i :: 0 <= i < |lits| ==> WellFormed(lits[i])
    requires forall i :: 0 <= i < |lits| ==> AllSpace(before[i]) && AllSpace(after[i])
    requires forall i :: 0 <= i < |lits| ==> ValueSeparator !in before[i] && ValueSeparator !in after[i]
    ensures StripAll(Split(Join(PaddedPieces(lits, before, after), ValueSeparator), ValueSeparator)) == Renders(lits)
  {
    var pieces := PaddedPieces(lits, before, after);
    forall i | 0 <= i < |lits|
      ensures ValueSeparator !in pieces[i]
      ensures Strip(pieces[i]) == Render(lits[i])
    {
      PaddedLiteral(before[i], lits[i], after[i]);
    }
    SplitJoin(pieces, ValueSeparator);
  }

  /** float() reads every rendered literal as its value. */
  lemma ParseRenders(lits: seq<Literal>)
    requires forall i :: 0 <= i < |lits| ==> WellFormed(lits[i])
    ensures ParseAll(Renders(lits)) == Success(Values(lits))
  {
    var texts, values := Renders(lits), Values(lits);
    forall i | 0 <= i < |lits| ensures ParseFloat(texts[i]) == Some(values[i]) {
      ScanRoundTrip(lits[i]);
    }
    ParseAllSpec(texts);
    assert ParseAll(texts).value == values;
  }

  /**
   * A header whose position value lists well-formed decimals, each padded
   * with whitespace and separated by backslashes, yields exactly their
   * values in order, whatever their number.
   */
  lemma GetIppOfLiterals(metadata: map<string, string>, lits: seq<Literal>,
                         before: seq<string>, after: seq<string>)
    requires |lits| > 0 && |before| == |lits| && |after| == |lits|
    requires forall i :: 0 <= i < |lits| ==> WellFormed(lits[i])
    requires forall i :: 0 <= i < |lits| ==> AllSpace(before[i]) && AllSpace(after[i])
    requires forall i :: 0 <= i < |lits| ==> ValueSeparator !in before[i] && ValueSeparator !in after[i]
    requires PositionTag in metadata
    requires metadata[PositionTag] == Join(PaddedPieces(lits, before, after), ValueSeparator)
    ensures GetIpp(metadata) == Success(Values(lits))
  {
    PiecesOfLiterals(lits, before, after);
    ParseRenders(lits);
  }

  /**
   * Python's angle/90 == angle//90 for an integer angle: true division
   * (exact here) against floor division. Dafny's / on int with a positive
   * divisor is floor division.
   */
  predicate AngleAccepted(angle: int) {
    (angle as real) / 90.0 == ((angle / 90) as real)
  }

  /** The angle test passes exactly for the multiples of 90. */
  lemma AngleAcceptedIff(angle: int)
    ensures AngleAccepted(angle) <==> angle % 90 == 0
  {
    var q, m := angle / 90, angle % 90;
    assert angle == 90 * q + m && 0 <= m < 90;
    assert (angle as real) / 90.0 == (q as real) + (m as real) / 90.0;
  }

  /** The number of quarter turns np.rot90 is given: angle // 90. */
  function QuarterTurns(angle: int): (k: int)
    ensures AngleAccepted(angle) ==> 90 * k == angle
    ensures 90 * k <= angle < 90 * k + 90
  {
    AngleAcceptedIff(angle);
    angle / 90
  }

  /** save_array_as_jpg's file name: ".jpg" is appended unless already there. */
  function JpgPath(path: string): (r: string)
    ensures EndsWith(r, ".jpg")
    ensures EndsWith(path, ".jpg") ==> r == path
    ensures !EndsWith(path, ".jpg") ==> r == path + ".jpg"
  {
    if EndsWith(path, ".jpg") then path else path + ".jpg"
  }

  /** Normalising a file name twice is normalising it once. */
  lemma JpgPathIdempotent(path: string)
    ensures JpgPath(JpgPath(path)) == JpgPath(path)
  {
  }
}
