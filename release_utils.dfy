/** Choosing release folders and release files by name. The rows of the release file view and the
    children of a release folder are inputs; the service that lists them is not modelled. */
module ReleaseUtils {
  import opened Common
  import opened Text

  /** A row of the release file view: folder name and folder id. */
  datatype ReleaseRow = ReleaseRow(name: string, id: string)

  /** The release named by a folder: its name's first word, or its second word when there is more
      than one (consortium folders are named "Release X"). */
  function ReleaseToken(name: string): (t: string)
    ensures ' ' !in t
    ensures ' ' !in name ==> t == name
  {
    var words := Split(name, ' ');
    SplitPiecesFree(name, ' ');
    SplitSingle(name, ' ');
    if |words| > 1 then words[1] else words[0]
  }

  /** Splitting at a separator after a first piece without one gives that piece, then the split
      of the rest. */
  lemma {:induction false} SplitAfterFirst(a: string, sep: char, b: string)
    requires sep !in a
    ensures Split(a + [sep] + b, sep) == [a] + Split(b, sep)
    decreases |a|
  {
    if |a| == 0 {
      assert a + [sep] + b == [sep] + b;
      assert ([sep] + b)[1..] == b;
    } else {
      SplitAfterFirst(a[1..], sep, b);
      assert (a + [sep] + b)[1..] == a[1..] + [sep] + b;
      assert [a[0]] + a[1..] == a;
    }
  }

  /** The token of a name with a space is the word after the first space. */
  lemma ReleaseTokenIsSecondWord(first: string, word: string, rest: string)
    requires ' ' !in first && ' ' !in word
    ensures ReleaseToken(first + " " + word) == word
    ensures ReleaseToken(first + " " + word + " " + rest) == word
  {
    SplitAfterFirst(first, ' ', word);
    SplitSingle(word, ' ');
    assert first + " " + word == first + [' '] + word;
    SplitAfterFirst(first, ' ', word + " " + rest);
    SplitAfterFirst(word, ' ', rest);
    assert first + " " + word + " " + rest == first + [' '] + (word + [' '] + rest);
  }

  /** A folder is a release folder when its token holds a '.' or a '-'. */
  predicate IsRelease(token: string)
  {
    Contains(token, ".") || Contains(token, "-")
  }

  /** The token of each row, later rows overwriting earlier ones. */
  function ReleaseMapOf(rows: seq<ReleaseRow>): map<string, string>
  {
    if |rows| == 0 then map[]
    else
      var m := ReleaseMapOf(rows[..|rows| - 1]);
      var row := rows[|rows| - 1];
      var t := ReleaseToken(row.name);
      if IsRelease(t) then m[t := row.id] else m
  }

  /** `get_available_releases` over the rows of the release file view. */
  method GetAvailableReleases(rows: seq<ReleaseRow>) returns (releaseMap: map<string, string>)
    ensures releaseMap == ReleaseMapOf(rows)
  {
    releaseMap := map[];
    for i := 0 to |rows|
      invariant releaseMap == ReleaseMapOf(rows[..i])
    {
      assert rows[..i + 1][..i] == rows[..i];
      var release := ReleaseToken(rows[i].name);
      if IsRelease(release) {
        releaseMap := releaseMap[release := rows[i].id];
      }
    }
    assert rows[..|rows|] == rows;
  }

  /** Some row's name has token `t`. */
  predicate HasToken(rows: seq<ReleaseRow>, t: string)
  {
    exists i :: 0 <= i < |rows| && ReleaseToken(rows[i].name) == t
  }

  lemma HasTokenSnoc(rows: seq<ReleaseRow>, t: string)
    requires |rows| > 0
    ensures HasToken(rows, t) <==> HasToken(rows[..|rows| - 1], t) || ReleaseToken(rows[|rows| - 1].name) == t
  {
    var init := rows[..|rows| - 1];
    if HasToken(rows, t) {
      var i :| 0 <= i < |rows| && ReleaseToken(rows[i].name) == t;
      if i < |init| {
        assert init[i] == rows[i];
      }
    }
    if HasToken(init, t) {
      var i :| 0 <= i < |init| && ReleaseToken(init[i].name) == t;
      assert rows[i] == init[i];
    }
  }

  /** A token is a key exactly when it is a release token of some row. */
  lemma {:induction false} ReleaseMapKeys(rows: seq<ReleaseRow>, t: string)
    ensures t in ReleaseMapOf(rows) <==> IsRelease(t) && HasToken(rows, t)
  {
    if |rows| > 0 {
      ReleaseMapKeys(rows[..|rows| - 1], t);
      HasTokenSnoc(rows, t);
    }
  }

  /** Each key maps to the id of the last row with that token. */
  lemma {:induction false} ReleaseMapLastWins(rows: seq<ReleaseRow>, t: string)
    requires t in ReleaseMapOf(rows)
    ensures exists i :: 0 <= i < |rows| && ReleaseToken(rows[i].name) == t && ReleaseMapOf(rows)[t] == rows[i].id
              && forall j :: i < j < |rows| ==> ReleaseToken(rows[j].name) != t
  {
    var n := |rows| - 1;
    var init := rows[..n];
    var last := ReleaseToken(rows[n].name);
    var m := ReleaseMapOf(init);
    assert ReleaseMapOf(rows) == if IsRelease(last) then m[last := rows[n].id] else m;
    if last == t {
      ReleaseMapKeys(rows, t);
      assert ReleaseMapOf(rows)[t] == rows[n].id;
    } else {
      ReleaseMapLastWins(init, t);
      var i :| 0 <= i < |init| && ReleaseToken(init[i].name) == t && m[t] == init[i].id
               && forall j :: i < j < |init| ==> ReleaseToken(init[j].name) != t;
      assert rows[i] == init[i];
      forall j | i < j < |rows| ensures ReleaseToken(rows[j].name) != t {
        if j < n {
          assert rows[j] == init[j];
        }
      }
    }
  }

  /** The file types a release folder can be searched for. */
  const AllowedFiletypes: seq<string> := ["mutation", "clinical", "cna", "fusion"]

  /** A child of a release folder: its name, and the local path of the entity fetched for it. */
  datatype ChildFile = ChildFile(name: string, path: string)

  /** A file is wanted when its name mentions the file type and is not a metadata file. */
  predicate IsWanted(filetype: string, filename: string)
  {
    Contains(filename, filetype) && !StartsWith(filename, "meta")
  }

  /** Name to path for the wanted children, later children overwriting earlier ones. */
  function GenieFileMapOf(filetype: string, files: seq<ChildFile>): map<string, string>
  {
    if |files| == 0 then map[]
    else
      var m := GenieFileMapOf(filetype, files[..|files| - 1]);
      var f := files[|files| - 1];
      if IsWanted(filetype, f.name) then m[f.name := f.path] else m
  }

  /** `get_genie_file`: a file type outside the allowed four is a ValueError; otherwise the wanted
      children's names map to their paths. */
  method GetGenieFile(filetype: string, files: seq<ChildFile>) returns (r: Result<map<string, string>>)
    ensures filetype !in AllowedFiletypes <==> r == Err(ValueError)
    ensures filetype in AllowedFiletypes ==> r == Ok(GenieFileMapOf(filetype, files))
  {
    if filetype !in AllowedFiletypes {
      return Err(ValueError);
    }
    var genieFileMap := map[];
    for i := 0 to |files|
      invariant genieFileMap == GenieFileMapOf(filetype, files[..i])
    {
      assert files[..i + 1][..i] == files[..i];
      var filename := files[i].name;
      if IsWanted(filetype, filename) {
        genieFileMap := genieFileMap[filename := files[i].path];
      }
    }
    assert files[..|files|] == files;
    return Ok(genieFileMap);
  }

  /** A name is a key exactly when it is wanted and some child has it. */
  lemma {:induction false} GenieFileMapKeys(filetype: string, files: seq<ChildFile>, name: string)
    ensures name in GenieFileMapOf(filetype, files) <==>
              IsWanted(filetype, name) && exists i :: 0 <= i < |files| && files[i].name == name
  {
    if |files| > 0 {
      var init := files[..|files| - 1];
      GenieFileMapKeys(filetype, init, name);
      if name in GenieFileMapOf(filetype, init) {
        var i :| 0 <= i < |init| && init[i].name == name;
        assert files[i] == init[i];
      }
      if IsWanted(filetype, name) && exists i :: 0 <= i < |files| && files[i].name == name {
        var i :| 0 <= i < |files| && files[i].name == name;
        if i < |init| {
          assert init[i] == files[i];
        }
      }
    }
  }

  /** Each name maps to the path of the last child with that name. */
  lemma {:induction false} GenieFileMapLastWins(filetype: string, files: seq<ChildFile>, name: string)
    requires name in GenieFileMapOf(filetype, files)
    ensures exists i :: 0 <= i < |files| && files[i].name == name && GenieFileMapOf(filetype, files)[name] == files[i].path
              && forall j :: i < j < |files| ==> files[j].name != name
  {
    var n := |files| - 1;
    var init := files[..n];
    if files[n].name == name {
      GenieFileMapKeys(filetype, files, name);
      assert files[n].name == name && GenieFileMapOf(filetype, files)[name] == files[n].path;
    } else {
      GenieFileMapLastWins(filetype, init, name);
      var i :| 0 <= i < |init| && init[i].name == name && GenieFileMapOf(filetype, init)[name] == init[i].path
               && forall j :: i < j < |init| ==> init[j].name != name;
      assert files[i] == init[i];
      forall j | i < j < |files| ensures files[j].name != name {
        if j < n {
          assert files[j] == init[j];
        }
      }
    }
  }

  /** Metadata files are never returned, whatever the file type. */
  lemma MetaFilesExcluded(filetype: string, files: seq<ChildFile>, name: string)
    requires StartsWith(name, "meta")
    ensures name !in GenieFileMapOf(filetype, files)
  {
    GenieFileMapKeys(filetype, files, name);
  }
}
