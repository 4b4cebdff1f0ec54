/**
 * Filename handling of the video-to-audio step: every video in the
 * `videos` directory is converted by ffmpeg into
 * `audios/<tutorial number>_<base name>.mp3`. The conversion itself is
 * external; the model covers the names and the command issued per file.
 */
module VideoToMp3 {
  import opened Wrappers
  import opened PyStr
  import Seq

  /** Marks the start of a bracketed suffix such as ` [Part 1]`. */
  const PartSep: string := " ["
  /** Precedes the tutorial number, as in `Tutorial #12`. */
  const NumberSep: string := " #"
  /** Space, FULLWIDTH VERTICAL LINE (U+FF5C), space: precedes the episode title. */
  const TitleSep: string := " \U{FF5C} "

  /** The exception the Python expression raises: indexing field 1 of a one-field split. */
  datatype ParseError = IndexError

  /**
   * `file.split(" [")[0].split(" #")[1]`: the text after the first ` #` of
   * the part before the first ` [`, up to the next ` #` or the end of that part.
   */
  function TutorialNumber(file: string): (r: Result<string, ParseError>)
    ensures r.Success? <==> Contains(Before(file, PartSep), NumberSep)
    ensures r.Success? ==>
              r.value == Before(After(Before(file, PartSep), NumberSep), NumberSep)
    ensures !Contains(file, PartSep) ==>
              r == if Contains(file, NumberSep)
                   then Success(Before(After(file, NumberSep), NumberSep))
                   else Failure(IndexError)
  {
    SplitFields(file, PartSep);
    var head := Split(file, PartSep)[0];
    var parts := Split(head, NumberSep);
    if |parts| < 2 then Failure(IndexError)
    else
      SecondField(head, NumberSep);
      Success(parts[1])
  }

  /** `file.split(" ｜ ")[0]`: the prefix before the first title separator, or the whole name. */
  function BaseName(file: string): (r: string)
    ensures r <= file
    ensures NoneBefore(file, TitleSep, |r|)
    ensures !Contains(r, TitleSep)
    ensures r == file <==> !Contains(file, TitleSep)
    ensures Contains(file, TitleSep) ==> OccursAt(file, TitleSep, |r|)
  {
    Split(file, TitleSep)[0]
  }

  /** The output name `f"{tutorial_number}_{file_name}.mp3"`. */
  function AudioName(file: string): (r: Result<string, ParseError>)
    ensures r.Success? <==> Contains(Before(file, PartSep), NumberSep)
    ensures r.Success? ==>
              r.value == TutorialNumber(file).value + "_" + Before(file, TitleSep) + ".mp3"
  {
    var number :- TutorialNumber(file);
    SplitFields(file, TitleSep);
    Success(number + "_" + BaseName(file) + ".mp3")
  }

  /** The ffmpeg argument vector issued for one video. */
  function FfmpegCommand(file: string): (r: Result<seq<string>, ParseError>)
    ensures r.Success? <==> AudioName(file).Success?
    ensures r.Success? ==>
              r.value == ["ffmpeg", "-i", "videos/" + file, "audios/" + AudioName(file).value]
  {
    var name :- AudioName(file);
    Success(["ffmpeg", "-i", "videos/" + file, "audios/" + name])
  }

  /** What one run of the script does: the commands it issued, and whether it then crashed. */
  datatype Run = Run(commands: seq<seq<string>>, crashed: bool)

  /**
   * The loop over the directory listing `files`: one ffmpeg command per
   * file, in listing order, until the first file whose name has no
   * tutorial number raises and ends the script.
   */
  function ConvertAll(files: seq<string>): (r: Run)
    ensures |r.commands| <= |files|
    ensures forall k :: 0 <= k < |r.commands| ==>
              FfmpegCommand(files[k]) == Success(r.commands[k])
    ensures r.crashed ==> |r.commands| < |files| && FfmpegCommand(files[|r.commands|]).Failure?
    ensures !r.crashed ==> |r.commands| == |files|
  {
    var cmds := Seq.MapUntilFailure(FfmpegCommand, files);
    Run(cmds.0, cmds.1)
  }

  /** The run crashes exactly when some listed name has no tutorial number. */
  lemma CrashesIffSomeNameFails(files: seq<string>)
    ensures ConvertAll(files).crashed <==> exists k :: 0 <= k < |files| && AudioName(files[k]).Failure?
  {
    var r := ConvertAll(files);
    if r.crashed {
      assert AudioName(files[|r.commands|]).Failure?;
    } else {
      forall k | 0 <= k < |files|
        ensures AudioName(files[k]).Success?
      {
        assert FfmpegCommand(files[k]).Success?;
      }
    }
  }

  /**
   * Reading the number off known positions: the first ` [` at `p`, the
   * first ` #` at `n` before it, and no further ` #` up to `p`.
   */
  lemma NumberBetween(file: string, p: nat, n: nat)
    requires OccursAt(file, PartSep, p) && NoneBefore(file, PartSep, p)
    requires OccursAt(file[..p], NumberSep, n) && NoneBefore(file[..p], NumberSep, n)
    requires !Contains(file[n + 2..p], NumberSep)
    ensures TutorialNumber(file) == Success(file[n + 2..p])
  {
    PartitionAt(file, PartSep, p);
    PartitionAt(file[..p], NumberSep, n);
    assert file[..p][n + 2..] == file[n + 2..p];
  }

  /**
   * Without ` [`, the number is read from the whole name: from the first
   * ` #` at `n` to the end, when no second ` #` follows.
   */
  lemma NumberToEnd(file: string, n: nat)
    requires !Contains(file, PartSep)
    requires OccursAt(file, NumberSep, n) && NoneBefore(file, NumberSep, n)
    requires !Contains(file[n + 2..], NumberSep)
    ensures TutorialNumber(file) == Success(file[n + 2..])
  {
    PartitionAt(file, NumberSep, n);
  }

  /** The worked example of the number extraction: `Tutorial #12 [Part 1].mp4` gives `12`. */
  lemma NumberOfPartExample()
    ensures TutorialNumber("Tutorial #12 [Part 1].mp4") == Success("12")
  {
    var f := "Tutorial #12 [Part 1].mp4";
    assert f[12..14] == PartSep;
    forall j | 0 <= j < 12
      ensures !OccursAt(f, PartSep, j)
    {
      assert f[j..j + 2][0] == f[j] && f[j..j + 2][1] == f[j + 1];
    }
    var h := f[..12];
    assert h == "Tutorial #12";
    assert h[8..10] == NumberSep;
    forall j | 0 <= j < 8
      ensures !OccursAt(h, NumberSep, j)
    {
      assert h[j..j + 2][0] == h[j];
    }
    assert f[10..12] == "12";
    assert !OccursAt("12", NumberSep, 0) by { assert "12"[0] == '1'; }
    NumberBetween(f, 12, 8);
  }

  /** The worked example of the base name: `Tutorial #12 ｜ Intro.mp4` gives `Tutorial #12`. */
  lemma BaseNameExample()
    ensures BaseName("Tutorial #12 \U{FF5C} Intro.mp4") == "Tutorial #12"
  {
    var f := "Tutorial #12 \U{FF5C} Intro.mp4";
    assert f[12..15] == TitleSep;
    forall j | 0 <= j < 12
      ensures !OccursAt(f, TitleSep, j)
    {
      assert f[j..j + 3][0] == f[j] && f[j..j + 3][1] == f[j + 1];
    }
    FindIsFirst(f, TitleSep, 12);
    assert f[..12] == "Tutorial #12";
  }

  /** No ` #` in the text `12 ｜ Intro.mp4`. */
  lemma NoSecondNumberSep()
    ensures !Contains("12 \U{FF5C} Intro.mp4", NumberSep)
  {
    var n := "12 \U{FF5C} Intro.mp4";
    forall j | 0 <= j <= |n|
      ensures !OccursAt(n, NumberSep, j)
    {
      if j + 2 <= |n| {
        assert n[j..j + 2][0] == n[j] && n[j..j + 2][1] == n[j + 1];
      }
    }
  }

  /**
   * On a name without ` [`, the tutorial number is not cut at the title
   * separator: `Tutorial #12 ｜ Intro.mp4` gives `12 ｜ Intro.mp4`.
   */
  lemma NumberNotCutAtTitleExample()
    ensures TutorialNumber("Tutorial #12 \U{FF5C} Intro.mp4") == Success("12 \U{FF5C} Intro.mp4")
  {
    var f := "Tutorial #12 \U{FF5C} Intro.mp4";
    NoPartSep();
    assert f[8] == ' ' && f[9] == '#';
    assert f[8..10] == NumberSep;
    forall j | 0 <= j < 8
      ensures !OccursAt(f, NumberSep, j)
    {
      assert f[j..j + 2][0] == f[j];
    }
    assert f[10..] == "12 \U{FF5C} Intro.mp4";
    NoSecondNumberSep();
    NumberToEnd(f, 8);
  }


  /** No ` [` in `Tutorial #12 ｜ Intro.mp4`. */
  lemma NoPartSep()
    ensures !Contains("Tutorial #12 \U{FF5C} Intro.mp4", PartSep)
  {
    var f := "Tutorial #12 \U{FF5C} Intro.mp4";
    forall j | 0 <= j <= |f|
      ensures !OccursAt(f, PartSep, j)
    {
      if j + 2 <= |f| {
        assert f[j..j + 2][0] == f[j] && f[j..j + 2][1] == f[j + 1];
      }
    }
  }

}
