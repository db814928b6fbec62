/** The Caltech 101 helpers of naive_bayes_nearest_neighbor/caltech_util.py:
    the (image, output directory) extraction list, the random train/test
    split, and the extraction of one image that is skipped when a
    descriptor file with the same parameters is already there. Directory
    listings (glob), file existence, the file system's bytes, protobuf
    parsing and the random sample are parameters; the subprocess that runs
    the extractor is described by the command it would be given. */
module CaltechUtil {
  import opened Common
  import SiftUtil

  // ---------------------------------------------------------------------
  // POSIX path helpers (posixpath and str methods, as Python 2 has them).

  /** The position of the last occurrence of ch, or -1 (str.rfind). */
  function LastIndex(s: string, ch: char): (r: int)
    ensures -1 <= r < |s|
    ensures r >= 0 ==> s[r] == ch
    ensures forall i :: r < i < |s| ==> s[i] != ch
  {
    if |s| == 0 then -1
    else if s[|s| - 1] == ch then |s| - 1
    else LastIndex(s[..|s| - 1], ch)
  }

  /** os.path.join with two components. */
  function Join(a: string, b: string): string
  {
    if |b| > 0 && b[0] == '/' then b
    else if |a| == 0 || a[|a| - 1] == '/' then a + b
    else a + "/" + b
  }

  /** os.path.basename: everything after the last '/'. */
  function Basename(p: string): (r: string)
    ensures forall i :: 0 <= i < |r| ==> r[i] != '/'
    ensures |r| <= |p| && p[|p| - |r|..] == r
  {
    p[LastIndex(p, '/') + 1..]
  }

  /** str.rstrip('/'). */
  function RStripSlash(s: string): (r: string)
    ensures |r| <= |s| && s[..|r|] == r
    ensures |r| == 0 || r[|r| - 1] != '/'
    ensures forall i :: |r| <= i < |s| ==> s[i] == '/'
  {
    if |s| > 0 && s[|s| - 1] == '/' then RStripSlash(s[..|s| - 1]) else s
  }

  /** str.lstrip('/'). */
  function LStripSlash(s: string): (r: string)
    ensures |r| <= |s| && s[|s| - |r|..] == r
    ensures |r| == 0 || r[0] != '/'
    ensures forall i :: 0 <= i < |s| - |r| ==> s[i] == '/'
  {
    if |s| > 0 && s[0] == '/' then LStripSlash(s[1..]) else s
  }

  predicate AllSlashes(s: string)
  {
    forall i :: 0 <= i < |s| ==> s[i] == '/'
  }

  /** os.path.dirname: everything up to the last '/', with trailing
      slashes removed unless the head is made only of slashes. */
  function Dirname(p: string): string
  {
    var head := p[..LastIndex(p, '/') + 1];
    if |head| > 0 && !AllSlashes(head) then RStripSlash(head) else head
  }

  /** pattern occurs in s at position i. */
  predicate OccursAt(s: string, pattern: string, i: int)
  {
    0 <= i && i + |pattern| <= |s| && s[i..i + |pattern|] == pattern
  }

  /** str.replace(pattern, replacement): every non-overlapping occurrence, left to
      right; the empty pattern string matches before every character and at
      the end. */
  function Replace(s: string, pattern: string, replacement: string): string
    decreases |s|
  {
    if |pattern| == 0 then
      if |s| == 0 then replacement else replacement + [s[0]] + Replace(s[1..], pattern, replacement)
    else if |s| < |pattern| then s
    else if s[..|pattern|] == pattern then replacement + Replace(s[|pattern|..], pattern, replacement)
    else [s[0]] + Replace(s[1..], pattern, replacement)
  }

  /** A non-empty string that does not occur leaves the text unchanged. */
  lemma {:induction false} ReplaceAbsent(s: string, pattern: string, replacement: string)
    requires |pattern| > 0 && forall i :: !OccursAt(s, pattern, i)
    ensures Replace(s, pattern, replacement) == s
    decreases |s|
  {
    if |s| >= |pattern| {
      assert !OccursAt(s, pattern, 0);
      forall i ensures !OccursAt(s[1..], pattern, i) {
        if OccursAt(s[1..], pattern, i) {
          assert s[1..][i..i + |pattern|] == s[i + 1..i + 1 + |pattern|];
          assert OccursAt(s, pattern, i + 1);
          assert false;
        }
      }
      ReplaceAbsent(s[1..], pattern, replacement);
    }
  }

  /** splitext(p)[0] (posixpath): the extension starts at the last '.'
      after the last '/', unless only dots precede it in the last
      component. */
  function SplitextRoot(p: string): string
  {
    var sep := LastIndex(p, '/');
    var dot := LastIndex(p, '.');
    if dot > sep && exists j :: sep + 1 <= j < dot && p[j] != '.' then p[..dot] else p
  }

  predicate NoSlash(s: string)
  {
    forall i :: 0 <= i < |s| ==> s[i] != '/'
  }

  predicate NoChar(s: string, ch: char)
  {
    forall i :: 0 <= i < |s| ==> s[i] != ch
  }

  /** The last occurrence of ch in a + b, when b has none, is the one in a. */
  lemma {:induction false} LastIndexSkips(a: string, b: string, ch: char)
    requires NoChar(b, ch)
    ensures LastIndex(a + b, ch) == LastIndex(a, ch)
    decreases |b|
  {
    if |b| > 0 {
      assert (a + b)[..|a + b| - 1] == a + b[..|b| - 1];
      LastIndexSkips(a, b[..|b| - 1], ch);
    } else {
      assert a + b == a;
    }
  }

  /** A joined name without '/' is its own basename. */
  lemma BasenameOfJoin(d: string, name: string)
    requires |name| > 0 && NoSlash(name)
    ensures Basename(Join(d, name)) == name
  {
    var j := Join(d, name);
    if |d| == 0 {
      LastIndexSkips("", name, '/');
      assert "" + name == name;
    } else if d[|d| - 1] == '/' {
      LastIndexSkips(d, name, '/');
    } else {
      LastIndexSkips(d + "/", name, '/');
      assert j == (d + "/") + name;
    }
  }

  /** The root of stem.ext, for an extension without dots and a stem that
      is not made of dots only, is the stem. */
  lemma SplitextRootOf(stem: string, ext: string, k: nat)
    requires NoSlash(stem) && NoSlash(ext) && NoChar(ext, '.')
    requires k < |stem| && stem[k] != '.'
    ensures SplitextRoot(stem + "." + ext) == stem
  {
    var p := stem + "." + ext;
    assert p == (stem + ".") + ext;
    LastIndexSkips(stem + ".", ext, '.');
    LastIndexSkips(stem + ".", ext, '/');
    assert NoChar(stem + ".", '/');
    assert LastIndex(p, '/') == -1;
    assert LastIndex(p, '.') == |stem|;
    assert p[k] != '.';
    assert p[..|stem|] == stem;
  }

  // ---------------------------------------------------------------------
  // build_extraction_list.

  /** One unit of extraction work: an image and the directory its
      descriptor file goes to. */
  datatype Item = Item(image: string, directory: string)

  /** The class of a glob match: the match's directory with every
      occurrence of the image directory removed and leading slashes
      dropped. */
  function ClassName(imagePath: string, imageDirectory: string): string
  {
    LStripSlash(Replace(Dirname(imagePath), imageDirectory, ""))
  }

  /** The image path as build_extraction_list writes it: the match joined
      once more onto the image directory. */
  function AsWrittenImagePath(imageDirectory: string, imagePath: string): string
  {
    Join(imageDirectory, imagePath)
  }

  /** The item built for one glob match. */
  function ItemFor(imageDirectory: string, targetDirectory: string, imagePath: string): Item
  {
    Item(AsWrittenImagePath(imageDirectory, imagePath),
         Join(targetDirectory, ClassName(imagePath, imageDirectory)))
  }

  /** The items of a list of matches, in order. */
  function Items(imageDirectory: string, targetDirectory: string, matches: seq<string>): (r: seq<Item>)
    ensures |r| == |matches|
  {
    if |matches| == 0 then []
    else Items(imageDirectory, targetDirectory, matches[..|matches| - 1]) +
         [ItemFor(imageDirectory, targetDirectory, matches[|matches| - 1])]
  }

  /** The items are built one per match, in order. */
  lemma {:induction false} ItemsPointwise(imageDirectory: string, targetDirectory: string, matches: seq<string>, i: nat)
    requires i < |matches|
    ensures Items(imageDirectory, targetDirectory, matches)[i] == ItemFor(imageDirectory, targetDirectory, matches[i])
    decreases |matches|
  {
    if i < |matches| - 1 {
      ItemsPointwise(imageDirectory, targetDirectory, matches[..|matches| - 1], i);
    }
  }

  lemma ItemsStep(imageDirectory: string, targetDirectory: string, matches: seq<string>, i: nat)
    requires i < |matches|
    ensures Items(imageDirectory, targetDirectory, matches[..i + 1]) ==
      Items(imageDirectory, targetDirectory, matches[..i]) + [ItemFor(imageDirectory, targetDirectory, matches[i])]
  {
    assert matches[..i + 1][..i] == matches[..i];
  }

  /** The loop over the .jpg matches followed by the .png matches (the two
      glob results are parameters). */
  method BuildExtractionList(imageDirectory: string, targetDirectory: string,
                             jpgMatches: seq<string>, pngMatches: seq<string>)
    returns (extractionList: seq<Item>)
    ensures extractionList == Items(imageDirectory, targetDirectory, jpgMatches + pngMatches)
  {
    var imageList := jpgMatches;
    imageList := imageList + pngMatches;
    extractionList := [];
    for i := 0 to |imageList|
      invariant extractionList == Items(imageDirectory, targetDirectory, imageList[..i])
    {
      var imagePath := imageList[i];
      var fullImagePath := Join(imageDirectory, imagePath);
      var className := LStripSlash(Replace(Dirname(imagePath), imageDirectory, ""));
      var targetDataPath := Join(targetDirectory, className);
      ItemsStep(imageDirectory, targetDirectory, imageList, i);
      extractionList := extractionList + [Item(fullImagePath, targetDataPath)];
    }
    assert imageList[..|imageList|] == imageList;
  }

  /** The shape of what glob returns for directory/<class>/<name>: a class
      directory and a file name without slashes, under an image directory
      given without a trailing slash that does not reappear inside
      "/<class>". */
  ghost predicate GlobMatch(imageDirectory: string, cls: string, name: string)
  {
    |imageDirectory| > 0 && imageDirectory[|imageDirectory| - 1] != '/' &&
    |cls| > 0 && NoSlash(cls) && |name| > 0 && NoSlash(name) &&
    forall i :: !OccursAt("/" + cls, imageDirectory, i)
  }

  /** For such a match the class name is the class directory itself, so
      the descriptor file goes to targetDirectory/<class>. */
  lemma ClassNameOfMatch(imageDirectory: string, cls: string, name: string)
    requires GlobMatch(imageDirectory, cls, name)
    ensures ClassName(Join(Join(imageDirectory, cls), name), imageDirectory) == cls
  {
    var rest := "/" + cls;
    var classDir := imageDirectory + rest;
    assert Join(imageDirectory, cls) == classDir;
    DirnameOfMatch(classDir, name);
    ReplaceLeading(imageDirectory, rest);
    LStripOneSlash(cls);
  }

  lemma LStripOneSlash(cls: string)
    requires |cls| > 0 && cls[0] != '/'
    ensures LStripSlash("/" + cls) == cls
  {
    assert ("/" + cls)[1..] == cls;
  }

  /** The directory of dir/name is dir, for a dir not ending in '/'. */
  lemma DirnameOfMatch(dir: string, name: string)
    requires |dir| > 0 && dir[|dir| - 1] != '/' && |name| > 0 && NoSlash(name)
    ensures Dirname(Join(dir, name)) == dir
  {
    var m := (dir + "/") + name;
    assert Join(dir, name) == m;
    LastIndexSkips(dir + "/", name, '/');
    assert m[..|dir| + 1] == dir + "/";
    assert (dir + "/")[|dir| - 1] != '/';
    assert RStripSlash(dir + "/") == RStripSlash(dir);
  }

  /** Removing a directory from the front of a path whose rest does not
      contain it leaves the rest. */
  lemma ReplaceLeading(dir: string, rest: string)
    requires |dir| > 0 && forall i :: !OccursAt(rest, dir, i)
    ensures Replace(dir + rest, dir, "") == rest
  {
    var s := dir + rest;
    assert s[..|dir|] == dir;
    assert s[|dir|..] == rest;
    ReplaceAbsent(rest, dir, "");
  }

  /** With an absolute image directory the match is absolute too, and the
      item's image is the match itself. */
  lemma AbsoluteDirectoryKeepsMatch(imageDirectory: string, cls: string, name: string)
    requires GlobMatch(imageDirectory, cls, name) && imageDirectory[0] == '/'
    ensures var m := Join(Join(imageDirectory, cls), name);
      AsWrittenImagePath(imageDirectory, m) == m
  {
  }

  /** With a relative image directory the image directory is put in front
      a second time, naming a file that glob did not find. */
  lemma RelativeDirectoryDoubled(imageDirectory: string, cls: string, name: string)
    requires GlobMatch(imageDirectory, cls, name) && imageDirectory[0] != '/'
    ensures var m := Join(Join(imageDirectory, cls), name);
      AsWrittenImagePath(imageDirectory, m) == imageDirectory + "/" + m &&
      AsWrittenImagePath(imageDirectory, m) != m
  {
    var m := Join(Join(imageDirectory, cls), name);
    assert |imageDirectory + "/" + m| > |m|;
  }

  /** One input that shows it: the directory "caltech" and the match
      "caltech/faces/image_0001.jpg". */
  lemma RelativeDirectoryExample()
    ensures AsWrittenImagePath("caltech", "caltech/faces/image_0001.jpg") ==
      "caltech/caltech/faces/image_0001.jpg"
  {
  }

  /** The item the listing evidently means: the matched image itself, in
      the target directory of its class. */
  function IntendedItem(imageDirectory: string, targetDirectory: string, imagePath: string): Item
  {
    Item(imagePath, Join(targetDirectory, ClassName(imagePath, imageDirectory)))
  }

  /** For every match, absolute or relative, the intended item names the
      file glob found and the directory of its class. */
  lemma IntendedItemOfMatch(imageDirectory: string, targetDirectory: string, cls: string, name: string)
    requires GlobMatch(imageDirectory, cls, name)
    ensures var m := Join(Join(imageDirectory, cls), name);
      IntendedItem(imageDirectory, targetDirectory, m) == Item(m, Join(targetDirectory, cls)) &&
      (imageDirectory[0] == '/' ==> IntendedItem(imageDirectory, targetDirectory, m) ==
                                    ItemFor(imageDirectory, targetDirectory, m))
  {
    var m := Join(Join(imageDirectory, cls), name);
    ClassNameOfMatch(imageDirectory, cls, name);
    if imageDirectory[0] == '/' {
      MatchStartsLikeDirectory(imageDirectory, cls, name);
      assert Join(imageDirectory, m) == m;
    }
  }

  /** A match starts with the image directory's first character. */
  lemma MatchStartsLikeDirectory(imageDirectory: string, cls: string, name: string)
    requires |imageDirectory| > 0 && |cls| > 0 && cls[0] != '/' && |name| > 0 && name[0] != '/'
    ensures var m := Join(Join(imageDirectory, cls), name); |m| > 0 && m[0] == imageDirectory[0]
  {
    var d := Join(imageDirectory, cls);
    assert |d| > 0 && d[0] == imageDirectory[0];
  }

  // ---------------------------------------------------------------------
  // split_into_train_test_random.

  /** What random.sample promises: k distinct positions of the population. */
  predicate SampleDraw(picks: seq<nat>, k: int, n: nat)
  {
    |picks| == k &&
    (forall i :: 0 <= i < |picks| ==> picks[i] < n) &&
    (forall i, j :: 0 <= i < j < |picks| ==> picks[i] != picks[j])
  }

  /** A Python slice bound: negative counts from the end, both clipped. */
  function SliceBound(i: int, n: nat): (r: nat)
    ensures r <= n
    ensures 0 <= i <= n ==> r == i
  {
    if i < 0 then (if n + i < 0 then 0 else n + i) else if i > n then n else i
  }

  datatype TrainTest = TrainTest(training: seq<string>, testing: seq<string>)

  /** TrainSizeError when more files are asked for than there are; the
      negative total that random.sample refuses is a ValueError. Otherwise
      the sampled files are cut at numTrain, Python-style. */
  function SplitIntoTrainTestRandom(fileList: seq<string>, numTrain: int, numTest: int, picks: seq<nat>)
    : (r: Result<TrainTest>)
    requires 0 <= numTrain + numTest <= |fileList| ==> SampleDraw(picks, numTrain + numTest, |fileList|)
    ensures r.Fatal? <==> numTrain + numTest > |fileList| || numTrain + numTest < 0
    ensures r.Ok? ==> |r.value.training| + |r.value.testing| == numTrain + numTest
    ensures r.Ok? ==> forall x :: x in r.value.training || x in r.value.testing ==> x in fileList
  {
    if numTrain + numTest > |fileList| then Fatal("num_train + num_test is larger than len(file_list)")
    else if numTrain + numTest < 0 then Fatal("sample larger than population or is negative")
    else
      var selected := seq(|picks|, i requires 0 <= i < |picks| => fileList[picks[i]]);
      var cut := SliceBound(numTrain, |selected|);
      Ok(TrainTest(selected[..cut], selected[cut..]))
  }

  predicate NoRepeats(s: seq<string>)
  {
    forall i, j :: 0 <= i < j < |s| ==> s[i] != s[j]
  }

  /** With non-negative counts the two lists have exactly the requested
      sizes, and over a list without repetitions no file is in both. */
  lemma SplitSizesAndDisjoint(fileList: seq<string>, numTrain: int, numTest: int, picks: seq<nat>)
    requires 0 <= numTrain && 0 <= numTest && numTrain + numTest <= |fileList|
    requires SampleDraw(picks, numTrain + numTest, |fileList|)
    ensures var r := SplitIntoTrainTestRandom(fileList, numTrain, numTest, picks);
      r.Ok? && |r.value.training| == numTrain && |r.value.testing| == numTest &&
      (NoRepeats(fileList) ==> forall x :: x in r.value.training ==> x !in r.value.testing)
  {
    var r := SplitIntoTrainTestRandom(fileList, numTrain, numTest, picks);
    if NoRepeats(fileList) {
      forall i, j | 0 <= i < numTrain && 0 <= j < numTest
        ensures r.value.training[i] != r.value.testing[j]
      {
        assert r.value.training[i] == fileList[picks[i]];
        assert r.value.testing[j] == fileList[picks[numTrain + j]];
      }
    }
  }

  // ---------------------------------------------------------------------
  // do_extraction: is a fresh extraction needed?

  /** The tolerance for the four float fields. */
  const Eps: real := 0.00001

  function Abs(x: real): real { if x < 0.0 then -x else x }

  /** The field-by-field comparison: booleans, integers and the grid
      method must be equal, the floats within Eps. Parameters that agree
      except in resolution_factor never differ; parameters that do not
      differ agree on every other field, the floats up to Eps. */
  function Differs(e: SiftUtil.ExtractionParameters, q: SiftUtil.ExtractionParameters): (d: bool)
    ensures e.(resolutionFactor := q.resolutionFactor) == q ==> !d
    ensures !d ==>
      e == q.(normalizationThreshold := e.normalizationThreshold, percentage := e.percentage,
              minimumRadius := e.minimumRadius, firstLevelSmoothing := e.firstLevelSmoothing,
              resolutionFactor := e.resolutionFactor)
    ensures !d ==>
      Abs(e.normalizationThreshold - q.normalizationThreshold) <= Eps && Abs(e.percentage - q.percentage) <= Eps &&
      Abs(e.minimumRadius - q.minimumRadius) <= Eps && Abs(e.firstLevelSmoothing - q.firstLevelSmoothing) <= Eps
  {
    e.rotationInvariance != q.rotationInvariance ||
    Abs(e.normalizationThreshold - q.normalizationThreshold) > Eps ||
    e.discardUnnormalized != q.discardUnnormalized ||
    e.multiscale != q.multiscale ||
    Abs(e.percentage - q.percentage) > Eps ||
    Abs(e.minimumRadius - q.minimumRadius) > Eps ||
    e.fractionalXy != q.fractionalXy ||
    e.topLeftX != q.topLeftX ||
    e.topLeftY != q.topLeftY ||
    e.bottomRightX != q.bottomRightX ||
    e.bottomRightY != q.bottomRightY ||
    e.implementation != q.implementation ||
    e.gridMethod != q.gridMethod ||
    e.smoothed != q.smoothed ||
    Abs(e.firstLevelSmoothing - q.firstLevelSmoothing) > Eps ||
    e.fast != q.fast
  }

  /** Every field but resolution_factor is compared: parameters that do
      not differ are equal once their four float fields and their
      resolution factor are made equal, and equal parameters never differ. */
  lemma DiffersCoversEveryField(e: SiftUtil.ExtractionParameters, q: SiftUtil.ExtractionParameters)
    ensures !Differs(e, q) ==>
      e == q.(normalizationThreshold := e.normalizationThreshold, percentage := e.percentage,
              minimumRadius := e.minimumRadius, firstLevelSmoothing := e.firstLevelSmoothing,
              resolutionFactor := e.resolutionFactor)
    ensures !Differs(q, q)
  {
  }

  /** resolution_factor is never compared: parameters that differ from
      the request only there do not count as a difference. */
  lemma ResolutionFactorIgnored(q: SiftUtil.ExtractionParameters, factor: int)
    ensures !Differs(q.(resolutionFactor := factor), q)
  {
  }

  /** Floats that drift by at most Eps are not a difference. */
  lemma SmallDriftTolerated(q: SiftUtil.ExtractionParameters, d1: real, d2: real, d3: real, d4: real)
    requires Abs(d1) <= Eps && Abs(d2) <= Eps && Abs(d3) <= Eps && Abs(d4) <= Eps
    ensures !Differs(q.(normalizationThreshold := q.normalizationThreshold + d1,
                        percentage := q.percentage + d2,
                        minimumRadius := q.minimumRadius + d3,
                        firstLevelSmoothing := q.firstLevelSmoothing + d4), q)
  {
  }

  /** What get_extraction_parameters finds at the expected output path:
      IOError when the file is missing, an error that is not caught when
      the file is too short for its first frame or the frame does not
      parse, or the recorded parameters. */
  datatype ExistingFile = Unreadable | Malformed | Recorded(parameters: SiftUtil.ExtractionParameters)

  function ReadExisting(files: map<string, seq<SiftUtil.byte>>, path: string,
                        parse: seq<SiftUtil.byte> -> Option<SiftUtil.ExtractionParameters>): (r: ExistingFile)
    ensures r.Unreadable? <==> path !in files
    ensures r.Recorded? ==>
      (path in files && SiftUtil.FirstFrame(files[path]).Some? &&
       parse(SiftUtil.FirstFrame(files[path]).value) == Some(r.parameters))
  {
    if path !in files then Unreadable
    else match SiftUtil.FirstFrame(files[path])
      case None => Malformed
      case Some(bytes) =>
        match parse(bytes)
        case None => Malformed
        case Some(p) => Recorded(p)
  }

  /** need_fresh_extraction: true on IOError or on any difference; the
      malformed file's error propagates. */
  function NeedFreshExtraction(existing: ExistingFile, requested: SiftUtil.ExtractionParameters): (r: Result<bool>)
    ensures r.Fatal? <==> existing.Malformed?
    ensures existing.Unreadable? ==> r == Ok(true)
    ensures existing.Recorded? && existing.parameters == requested ==> r == Ok(false)
  {
    match existing
    case Unreadable => Ok(true)
    case Malformed => Fatal("struct.error")
    case Recorded(p) => Ok(Differs(p, requested))
  }

  // ---------------------------------------------------------------------
  // do_extraction: the command.

  /** The --grid_type argument for each grid method: the enum value's own
      name, which the extractor's flag parser reads back to the method. */
  function GridTypeName(g: SiftUtil.GridMethod): (name: string)
    ensures GridMethodNamed(name) == Some(g)
  {
    match g
    case Fixed3x3 => "FIXED_3X3"
    case Fixed8x8 => "FIXED_8X8"
    case Scaled3x3 => "SCALED_3X3"
    case ScaledBinWidth => "SCALED_BIN_WIDTH"
    case ScaledDoubleBinWidth => "SCALED_DOUBLE_BIN_WIDTH"
  }

  /** The names the extractor's --grid_type flag accepts. */
  const GridTypeNames: set<string> :=
    {"FIXED_3X3", "FIXED_8X8", "SCALED_3X3", "SCALED_BIN_WIDTH", "SCALED_DOUBLE_BIN_WIDTH"}

  /** The reverse mapping, as the extractor's --grid_type flag is read:
      any name outside the five is refused. */
  function GridMethodNamed(name: string): (r: Option<SiftUtil.GridMethod>)
    ensures r.Some? <==> name in GridTypeNames
  {
    if name == "FIXED_3X3" then Some(SiftUtil.Fixed3x3)
    else if name == "FIXED_8X8" then Some(SiftUtil.Fixed8x8)
    else if name == "SCALED_3X3" then Some(SiftUtil.Scaled3x3)
    else if name == "SCALED_BIN_WIDTH" then Some(SiftUtil.ScaledBinWidth)
    else if name == "SCALED_DOUBLE_BIN_WIDTH" then Some(SiftUtil.ScaledDoubleBinWidth)
    else None
  }

  /** Each accepted name is the name of the method it is read as, so the
      two mappings are inverse to each other. */
  lemma GridNamesInverse(name: string)
    ensures GridMethodNamed(name).Some? ==> GridTypeName(GridMethodNamed(name).value) == name
    ensures forall g :: name == GridTypeName(g) ==> GridMethodNamed(name) == Some(g)
  {
  }

  /** The extractor invocation: the four float options (printed with %f,
      which is not modelled), the flags in command-line order, the grid
      type, the output directory and the image. --clobber is always
      passed. */
  datatype Command = Command(firstLevelSmoothing: real, percentage: real, normalizationThreshold: real,
                             minimumRadius: real, flags: seq<string>, gridType: string,
                             outputDirectory: string, image: string)

  function Flag(on: bool, yes: string, no: string): string { if on then yes else no }

  /** The command for a request: every boolean option as its on or off
      flag, the floats as requested, the grid type by name. */
  function BuildCommand(requested: SiftUtil.ExtractionParameters, directory: string, image: string): (c: Command)
    ensures c.outputDirectory == directory && c.image == image
    ensures |c.flags| == 6 && c.flags[0] == "--clobber"
    ensures (c.flags[1] == "--discard") == requested.discardUnnormalized && c.flags[1] in {"--discard", "--nodiscard"}
    ensures (c.flags[2] == "--smooth") == requested.smoothed && c.flags[2] in {"--smooth", "--nosmooth"}
    ensures (c.flags[3] == "--fractional_location") == requested.fractionalXy &&
            c.flags[3] in {"--fractional_location", "--nofractional_location"}
    ensures (c.flags[4] == "--multiscale") == requested.multiscale && c.flags[4] in {"--multiscale", "--nomultiscale"}
    ensures (c.flags[5] == "--fast") == requested.fast && c.flags[5] in {"--fast", "--nofast"}
    ensures GridMethodNamed(c.gridType) == Some(requested.gridMethod)
    ensures c.firstLevelSmoothing == requested.firstLevelSmoothing && c.percentage == requested.percentage &&
            c.normalizationThreshold == requested.normalizationThreshold && c.minimumRadius == requested.minimumRadius
  {
    Command(requested.firstLevelSmoothing, requested.percentage, requested.normalizationThreshold,
            requested.minimumRadius,
            ["--clobber", Flag(requested.discardUnnormalized, "--discard", "--nodiscard"),
             Flag(requested.smoothed, "--smooth", "--nosmooth"),
             Flag(requested.fractionalXy, "--fractional_location", "--nofractional_location"),
             Flag(requested.multiscale, "--multiscale", "--nomultiscale"),
             Flag(requested.fast, "--fast", "--nofast")],
            GridTypeName(requested.gridMethod), directory, image)
  }

  /** The command carries every field the extractor is told about:
      requests with the same command agree on them. It says nothing of
      rotation invariance, the crop box or the implementation, which the
      comparison above does check, nor of the resolution factor. */
  lemma CommandDeterminesFields(p: SiftUtil.ExtractionParameters, q: SiftUtil.ExtractionParameters,
                                directory: string, image: string)
    ensures BuildCommand(p, directory, image) == BuildCommand(q, directory, image) ==>
      p.discardUnnormalized == q.discardUnnormalized && p.smoothed == q.smoothed &&
      p.fractionalXy == q.fractionalXy && p.multiscale == q.multiscale && p.fast == q.fast &&
      p.gridMethod == q.gridMethod && p.firstLevelSmoothing == q.firstLevelSmoothing &&
      p.percentage == q.percentage && p.normalizationThreshold == q.normalizationThreshold &&
      p.minimumRadius == q.minimumRadius
    ensures BuildCommand(p, directory, image) ==
      BuildCommand(p.(rotationInvariance := q.rotationInvariance, topLeftX := q.topLeftX,
                      topLeftY := q.topLeftY, bottomRightX := q.bottomRightX,
                      bottomRightY := q.bottomRightY, implementation := q.implementation,
                      resolutionFactor := q.resolutionFactor),
                   directory, image)
  {
    if BuildCommand(p, directory, image) == BuildCommand(q, directory, image) {
      var f, g := BuildCommand(p, directory, image).flags, BuildCommand(q, directory, image).flags;
      assert f[1] == g[1] && f[2] == g[2] && f[3] == g[3] && f[4] == g[4] && f[5] == g[5];
      assert GridMethodNamed(GridTypeName(p.gridMethod)) == Some(p.gridMethod);
    }
  }

  // ---------------------------------------------------------------------
  // do_extraction.

  /** What one extraction does: run the extractor, or report that the
      output path already holds the requested parameters. */
  datatype Action = Extract(command: Command) | AlreadyDone(outputPath: string)

  /** directory/<image name without its extension>.sift: a .sift file
      directly inside directory (or the name alone when it is empty). */
  function ExpectedOutputPath(directory: string, image: string): (path: string)
    ensures |path| >= 5 && path[|path| - 5..] == ".sift"
    ensures directory == "" || directory[|directory| - 1] == '/' || directory + "/" <= path
    ensures |directory| > 0 && directory[|directory| - 1] == '/' ==> directory <= path
  {
    Join(directory, SplitextRoot(Basename(image)) + ".sift")
  }

  /** For an image stem.ext the descriptor file is directory/stem.sift. */
  lemma ExpectedOutputOfImage(directory: string, imageDirectory: string, stem: string, ext: string, k: nat)
    requires NoSlash(stem) && NoSlash(ext) && NoChar(ext, '.')
    requires k < |stem| && stem[k] != '.'
    ensures ExpectedOutputPath(directory, Join(imageDirectory, stem + "." + ext)) == Join(directory, stem + ".sift")
  {
    var name := stem + "." + ext;
    assert NoSlash(name);
    BasenameOfJoin(imageDirectory, name);
    SplitextRootOf(stem, ext, k);
  }

  /** A missing image raises ImageNotFoundError before anything is read or
      run. Otherwise the expected output is looked at, and the extractor is
      run unless it records the requested parameters. */
  function DoExtraction(image: string, directory: string, requested: SiftUtil.ExtractionParameters,
                        imageExists: bool, files: map<string, seq<SiftUtil.byte>>,
                        parse: seq<SiftUtil.byte> -> Option<SiftUtil.ExtractionParameters>): (r: Result<Action>)
    ensures !imageExists ==> r.Fatal?
    ensures var existing := ReadExisting(files, ExpectedOutputPath(directory, image), parse);
      imageExists ==>
        (r.Fatal? <==> existing.Malformed?) &&
        (r.Ok? && r.value.Extract? <==> existing.Unreadable? || (existing.Recorded? && Differs(existing.parameters, requested))) &&
        (r.Ok? && r.value.AlreadyDone? <==> existing.Recorded? && !Differs(existing.parameters, requested))
    ensures r.Ok? ==>
      (r.value.Extract? ==> r.value.command == BuildCommand(requested, directory, image)) &&
      (r.value.AlreadyDone? ==> r.value.outputPath == ExpectedOutputPath(directory, image))
  {
    if !imageExists then Fatal(image + " does not exist")
    else
      var expectedOutputPath := ExpectedOutputPath(directory, image);
      match NeedFreshExtraction(ReadExisting(files, expectedOutputPath, parse), requested)
      case Fatal(why) => Fatal(why)
      case Ok(needed) =>
        if needed then Ok(Extract(BuildCommand(requested, directory, image)))
        else Ok(AlreadyDone(expectedOutputPath))
  }

  /** A file written with the requested parameters (as the extractor writes
      it) makes the next extraction of the same image a no-op. */
  lemma SecondExtractionSkipped(image: string, directory: string, requested: SiftUtil.ExtractionParameters,
                                files: map<string, seq<SiftUtil.byte>>, parameterBytes: seq<SiftUtil.byte>,
                                payload: seq<SiftUtil.byte>,
                                parse: seq<SiftUtil.byte> -> Option<SiftUtil.ExtractionParameters>)
    requires |parameterBytes| < SiftUtil.Int32Limit && |payload| < SiftUtil.Int32Limit
    requires parse(parameterBytes) == Some(requested)
    ensures var written := SiftUtil.WriteDescriptorSetToFile(files, ExpectedOutputPath(directory, image),
                                                             parameterBytes, payload);
      DoExtraction(image, directory, requested, true, written, parse) ==
      Ok(AlreadyDone(ExpectedOutputPath(directory, image)))
  {
    var path := ExpectedOutputPath(directory, image);
    var written := SiftUtil.WriteDescriptorSetToFile(files, path, parameterBytes, payload);
    assert ReadExisting(written, path, parse) == Recorded(requested);
    DiffersCoversEveryField(requested, requested);
  }

  /** A file recorded with another resolution factor but otherwise the
      requested parameters is not extracted again. */
  lemma OtherResolutionKept(image: string, directory: string, requested: SiftUtil.ExtractionParameters,
                            factor: int, files: map<string, seq<SiftUtil.byte>>,
                            parse: seq<SiftUtil.byte> -> Option<SiftUtil.ExtractionParameters>)
    requires ReadExisting(files, ExpectedOutputPath(directory, image), parse) ==
             Recorded(requested.(resolutionFactor := factor))
    ensures DoExtraction(image, directory, requested, true, files, parse) ==
      Ok(AlreadyDone(ExpectedOutputPath(directory, image)))
  {
    ResolutionFactorIgnored(requested, factor);
  }

  /** A file recorded with a different multiscale setting is extracted
      again. */
  lemma ChangedSettingExtractsAgain(image: string, directory: string, requested: SiftUtil.ExtractionParameters,
                                    files: map<string, seq<SiftUtil.byte>>,
                                    parse: seq<SiftUtil.byte> -> Option<SiftUtil.ExtractionParameters>)
    requires ReadExisting(files, ExpectedOutputPath(directory, image), parse).Recorded?
    requires ReadExisting(files, ExpectedOutputPath(directory, image), parse).parameters.multiscale !=
             requested.multiscale
    ensures DoExtraction(image, directory, requested, true, files, parse) ==
      Ok(Extract(BuildCommand(requested, directory, image)))
  {
  }

  /** INT32_MAX, the extractor's default bottom-right corner. */
  const Int32Max: int := SiftUtil.Int32Limit - 1

  /** The first-level smoothing the extractor keeps: a request more than
      0.0001 above cap (minimum_bin_size_ / magnif_, the largest smoothing
      its smallest bin allows) is replaced by cap; any other is kept. */
  function CappedSmoothing(smoothing: real, cap: real): (r: real)
    ensures r <= cap + 0.0001
    ensures r == smoothing <==> smoothing <= cap + 0.0001
    ensures smoothing > cap + 0.0001 ==> r == cap
  {
    if smoothing > cap + 0.0001 then cap else smoothing
  }

  /** The extractor's own test: 1.8 is recorded as 4/6 when magnif_ is 6. */
  lemma SmoothingCappedAtMaximum()
    ensures CappedSmoothing(1.8, 4.0 / 6.0) == 4.0 / 6.0
  {
  }

  /** The parameters the extractor records for a command: the fields the
      command passes, read back from its flags, with the first-level
      smoothing capped, and the extractor's own values for the rest. The crop box is its default 0, 0, INT32_MAX,
      INT32_MAX and the implementation VLFEAT (vlfeat, the enum's value);
      rotation invariance and the resolution factor are never set, so they
      keep the message's default values. A grid type it does not know is
      fatal (None). */
  function ExtractorRecords(c: Command, defaults: SiftUtil.ExtractionParameters, vlfeat: int, cap: real)
    : (p: Option<SiftUtil.ExtractionParameters>)
    ensures p.Some? <==> |c.flags| >= 6 && GridMethodNamed(c.gridType).Some?
    ensures p.Some? ==> ExtractorValues(p.value, defaults, vlfeat)
    ensures p.Some? ==> p.value.firstLevelSmoothing == CappedSmoothing(c.firstLevelSmoothing, cap)
  {
    if |c.flags| < 6 then None
    else match GridMethodNamed(c.gridType)
      case None => None
      case Some(g) =>
        Some(SiftUtil.ExtractionParameters(
          defaults.rotationInvariance, c.normalizationThreshold, c.flags[1] == "--discard",
          c.flags[4] == "--multiscale", c.percentage, c.minimumRadius, c.flags[3] == "--fractional_location",
          defaults.resolutionFactor, 0, 0, Int32Max, Int32Max, vlfeat, g, c.flags[2] == "--smooth",
          CappedSmoothing(c.firstLevelSmoothing, cap), c.flags[5] == "--fast"))
  }

  /** The fields the command cannot pass hold the extractor's own values. */
  predicate ExtractorValues(q: SiftUtil.ExtractionParameters, defaults: SiftUtil.ExtractionParameters, vlfeat: int)
  {
    q.rotationInvariance == defaults.rotationInvariance &&
    q.topLeftX == 0 && q.topLeftY == 0 && q.bottomRightX == Int32Max && q.bottomRightY == Int32Max &&
    q.implementation == vlfeat
  }

  /** The extractor records every field the command passes as requested,
      except the smoothing, which it caps, and its own values for the
      others. */
  lemma ExtractorRecordsCommand(requested: SiftUtil.ExtractionParameters, directory: string, image: string,
                                defaults: SiftUtil.ExtractionParameters, vlfeat: int, cap: real)
    ensures ExtractorRecords(BuildCommand(requested, directory, image), defaults, vlfeat, cap) ==
      Some(requested.(rotationInvariance := defaults.rotationInvariance, resolutionFactor := defaults.resolutionFactor,
                      topLeftX := 0, topLeftY := 0, bottomRightX := Int32Max, bottomRightY := Int32Max,
                      implementation := vlfeat,
                      firstLevelSmoothing := CappedSmoothing(requested.firstLevelSmoothing, cap)))
  {
    assert GridMethodNamed(GridTypeName(requested.gridMethod)) == Some(requested.gridMethod);
  }

  /** After the extractor has written the expected output for a request,
      the next run of do_extraction skips the image exactly when the
      request's rotation invariance, crop box and implementation are the
      extractor's own and its smoothing is not capped; any other request
      is extracted again on every run, because no file the command
      produces records it. */
  lemma NextRunAfterExtraction(image: string, directory: string, requested: SiftUtil.ExtractionParameters,
                               defaults: SiftUtil.ExtractionParameters, vlfeat: int, cap: real,
                               files: map<string, seq<SiftUtil.byte>>, parameterBytes: seq<SiftUtil.byte>,
                               payload: seq<SiftUtil.byte>,
                               parse: seq<SiftUtil.byte> -> Option<SiftUtil.ExtractionParameters>)
    requires |parameterBytes| < SiftUtil.Int32Limit && |payload| < SiftUtil.Int32Limit
    requires parse(parameterBytes) == ExtractorRecords(BuildCommand(requested, directory, image), defaults, vlfeat, cap)
    ensures var written := SiftUtil.WriteDescriptorSetToFile(files, ExpectedOutputPath(directory, image),
                                                             parameterBytes, payload);
      DoExtraction(image, directory, requested, true, written, parse) ==
        if ExtractorValues(requested, defaults, vlfeat) && requested.firstLevelSmoothing <= cap + 0.0001
        then Ok(AlreadyDone(ExpectedOutputPath(directory, image)))
        else Ok(Extract(BuildCommand(requested, directory, image)))
  {
    var path := ExpectedOutputPath(directory, image);
    var written := SiftUtil.WriteDescriptorSetToFile(files, path, parameterBytes, payload);
    ExtractorRecordsCommand(requested, directory, image, defaults, vlfeat, cap);
    var recorded := ExtractorRecords(BuildCommand(requested, directory, image), defaults, vlfeat, cap).value;
    assert ReadExisting(written, path, parse) == Recorded(recorded);
    if ExtractorValues(requested, defaults, vlfeat) && requested.firstLevelSmoothing <= cap + 0.0001 {
      assert recorded == requested.(resolutionFactor := defaults.resolutionFactor);
      ResolutionFactorIgnored(requested, defaults.resolutionFactor);
    }
  }

  // ---------------------------------------------------------------------
  // do_extraction_on_list.

  /** The chunk size map_async picks for n items over a pool of
      processes: n divided by four times the pool size, rounded up. */
  function ChunkSize(n: nat, processes: int): (c: nat)
    requires processes >= 1
    ensures c * (4 * processes) >= n
    ensures n >= 1 ==> c >= 1 && (c - 1) * (4 * processes) < n
  {
    var d := 4 * processes;
    var q := n / d;
    assert n == q * d + n % d;
    if n % d != 0 then
      assert (q + 1) * d == q * d + d;
      q + 1
    else q
  }

  /** The first position of the chunk of size cs that holds position i. */
  function ChunkStart(i: nat, cs: nat): (s: nat)
    requires cs >= 1
    ensures s <= i < s + cs
    decreases i
  {
    if i < cs then 0 else cs + ChunkStart(i - cs, cs)
  }

  /** One work unit of the pool: the items of a chunk run in order, and the
      first one that raises ends the unit, so the rest are never
      attempted (None). */
  function RunChunk(outcomes: seq<Result<Action>>): (r: seq<Option<Result<Action>>>)
    ensures |r| == |outcomes|
  {
    if |outcomes| == 0 then []
    else if outcomes[0].Fatal? then [Some(outcomes[0])] + seq(|outcomes| - 1, _ => None)
    else [Some(outcomes[0])] + RunChunk(outcomes[1..])
  }

  /** The work units of map_async: consecutive chunks of cs items. */
  function RunChunks(outcomes: seq<Result<Action>>, cs: nat): (r: seq<Option<Result<Action>>>)
    requires cs >= 1
    ensures |r| == |outcomes|
    decreases |outcomes|
  {
    if |outcomes| <= cs then RunChunk(outcomes)
    else RunChunk(outcomes[..cs]) + RunChunks(outcomes[cs..], cs)
  }

  /** Inside one work unit, item i is attempted iff no earlier item raised. */
  lemma {:induction false} RunChunkAt(outcomes: seq<Result<Action>>, i: nat)
    requires i < |outcomes|
    ensures RunChunk(outcomes)[i] ==
      if forall j :: 0 <= j < i ==> !outcomes[j].Fatal? then Some(outcomes[i]) else None
    decreases |outcomes|
  {
    if i > 0 {
      if outcomes[0].Fatal? {
        assert RunChunk(outcomes)[i] == None;
      } else {
        var rest := outcomes[1..];
        RunChunkAt(rest, i - 1);
        assert RunChunk(outcomes)[i] == RunChunk(rest)[i - 1];
        if forall j :: 0 <= j < i - 1 ==> !rest[j].Fatal? {
          forall j | 0 <= j < i
            ensures !outcomes[j].Fatal?
          {
            if j > 0 {
              assert outcomes[j] == rest[j - 1];
            }
          }
        } else {
          var j :| 0 <= j < i - 1 && rest[j].Fatal?;
          assert outcomes[j + 1] == rest[j];
        }
      }
    }
  }

  /** Item i of the first chunk is attempted iff no earlier item raised. */
  lemma FirstChunkAt(outcomes: seq<Result<Action>>, cs: nat, i: nat)
    requires cs >= 1 && i < |outcomes| && i < cs
    ensures RunChunks(outcomes, cs)[i] ==
      if forall j :: 0 <= j < i ==> !outcomes[j].Fatal? then Some(outcomes[i]) else None
  {
    var head := if |outcomes| <= cs then outcomes else outcomes[..cs];
    assert RunChunks(outcomes, cs)[i] == RunChunk(head)[i];
    RunChunkAt(head, i);
    assert forall j :: 0 <= j < i ==> head[j] == outcomes[j];
  }

  /** Past the first chunk, the work units are those of the remaining items. */
  lemma LaterChunkAt(outcomes: seq<Result<Action>>, cs: nat, i: nat)
    requires cs >= 1 && cs <= i < |outcomes|
    ensures RunChunks(outcomes, cs)[i] == RunChunks(outcomes[cs..], cs)[i - cs]
    ensures ChunkStart(i, cs) == ChunkStart(i - cs, cs) + cs
  {
  }

  lemma NoneRaisedShift(outcomes: seq<Result<Action>>, cs: nat, s: nat, i: nat)
    requires cs <= |outcomes| && s + cs <= i <= |outcomes|
    ensures (forall j :: s <= j < i - cs ==> !outcomes[cs..][j].Fatal?) <==>
            (forall j :: s + cs <= j < i ==> !outcomes[j].Fatal?)
  {
    var rest := outcomes[cs..];
    if forall j :: s <= j < i - cs ==> !rest[j].Fatal? {
      forall j | s + cs <= j < i
        ensures !outcomes[j].Fatal?
      {
        assert outcomes[j] == rest[j - cs];
      }
    } else {
      var j :| s <= j < i - cs && rest[j].Fatal?;
      assert outcomes[j + cs] == rest[j];
    }
  }

  /** Over all work units, item i is attempted iff no earlier item of its own
      chunk raised; a failure never reaches another chunk. */
  lemma {:induction false} RunChunksAt(outcomes: seq<Result<Action>>, cs: nat, i: nat)
    requires cs >= 1 && i < |outcomes|
    ensures RunChunks(outcomes, cs)[i] ==
      if forall j :: ChunkStart(i, cs) <= j < i ==> !outcomes[j].Fatal? then Some(outcomes[i]) else None
    decreases |outcomes|
  {
    if i < cs {
      FirstChunkAt(outcomes, cs, i);
    } else {
      LaterChunkAt(outcomes, cs, i);
      RunChunksAt(outcomes[cs..], cs, i - cs);
      NoneRaisedShift(outcomes, cs, ChunkStart(i - cs, cs), i);
      assert outcomes[cs..][i - cs] == outcomes[i];
    }
  }

  /** What do_extraction would do for each item on its own. */
  function Outcomes(extractionList: seq<Item>, requested: SiftUtil.ExtractionParameters,
                    present: string -> bool, files: map<string, seq<SiftUtil.byte>>,
                    parse: seq<SiftUtil.byte> -> Option<SiftUtil.ExtractionParameters>)
    : (r: seq<Result<Action>>)
    ensures |r| == |extractionList|
    ensures forall i :: 0 <= i < |r| ==>
      r[i] == DoExtraction(extractionList[i].image, extractionList[i].directory, requested,
                           present(extractionList[i].image), files, parse)
  {
    seq(|extractionList|, i requires 0 <= i < |extractionList| =>
      DoExtraction(extractionList[i].image, extractionList[i].directory, requested,
                   present(extractionList[i].image), files, parse))
  }

  /** RuntimeError without parameters, IndexError on an empty list (zip of
      nothing has no first column), ValueError for a pool of fewer than
      one process. Otherwise map_async runs the items in chunks of
      ChunkSize items, one work unit per chunk: within a chunk the items run in
      order until one raises, and the rest of that chunk is never
      attempted (None). The pool's results are never collected, so an
      item's failure is not the caller's failure. */
  function DoExtractionOnList(extractionList: seq<Item>, parameters: Option<SiftUtil.ExtractionParameters>,
                              numProcesses: int, present: string -> bool, files: map<string, seq<SiftUtil.byte>>,
                              parse: seq<SiftUtil.byte> -> Option<SiftUtil.ExtractionParameters>)
    : (r: Result<seq<Option<Result<Action>>>>)
    ensures r.Fatal? <==> parameters.None? || |extractionList| == 0 || numProcesses < 1
    ensures r.Ok? ==> |r.value| == |extractionList|
  {
    if parameters.None? then Fatal("extraction_parameters needs to be set")
    else if |extractionList| == 0 then Fatal("IndexError")
    else if numProcesses < 1 then Fatal("Number of processes must be at least 1")
    else
      Ok(RunChunks(Outcomes(extractionList, parameters.value, present, files, parse),
                   ChunkSize(|extractionList|, numProcesses)))
  }

  /** Item i is attempted, with do_extraction's own outcome, iff no
      earlier item of its chunk raised, whether for a missing image or a
      malformed recorded file; a missing image of an attempted item
      raises. */
  lemma ExtractionOnListAt(extractionList: seq<Item>, parameters: Option<SiftUtil.ExtractionParameters>,
                           numProcesses: int, present: string -> bool, files: map<string, seq<SiftUtil.byte>>,
                           parse: seq<SiftUtil.byte> -> Option<SiftUtil.ExtractionParameters>, i: nat)
    requires parameters.Some? && numProcesses >= 1 && i < |extractionList|
    ensures var r := DoExtractionOnList(extractionList, parameters, numProcesses, present, files, parse);
      var outcomes := Outcomes(extractionList, parameters.value, present, files, parse);
      var start := ChunkStart(i, ChunkSize(|extractionList|, numProcesses));
      r.Ok? &&
      (r.value[i].Some? <==> forall j :: start <= j < i ==> !outcomes[j].Fatal?) &&
      (r.value[i].Some? ==> r.value[i].value == outcomes[i]) &&
      (r.value[i].Some? && !present(extractionList[i].image) ==> r.value[i].value.Fatal?)
  {
    var outcomes := Outcomes(extractionList, parameters.value, present, files, parse);
    RunChunksAt(outcomes, ChunkSize(|extractionList|, numProcesses), i);
  }

  /** A missing image skips the rest of its chunk: with one process and
      eight items the chunks hold two items, so a missing first image
      means the second is never extracted. */
  lemma MissingImageSkipsChunk(extractionList: seq<Item>, requested: SiftUtil.ExtractionParameters,
                               present: string -> bool, files: map<string, seq<SiftUtil.byte>>,
                               parse: seq<SiftUtil.byte> -> Option<SiftUtil.ExtractionParameters>)
    requires |extractionList| == 8 && !present(extractionList[0].image)
    ensures ChunkSize(8, 1) == 2
    ensures DoExtractionOnList(extractionList, Some(requested), 1, present, files, parse).value[1].None?
  {
    var outcomes := Outcomes(extractionList, requested, present, files, parse);
    assert ChunkStart(1, 2) == 0;
    RunChunksAt(outcomes, 2, 1);
    assert outcomes[0].Fatal?;
  }

  /** The output directories created before the extraction: those of the
      list that do not exist yet. */
  function DirectoriesToCreate(extractionList: seq<Item>, present: string -> bool): (r: set<string>)
    ensures forall d :: d in r <==> !present(d) && exists i :: 0 <= i < |extractionList| && extractionList[i].directory == d
  {
    set i | 0 <= i < |extractionList| && !present(extractionList[i].directory) :: extractionList[i].directory
  }
}
