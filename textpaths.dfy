/** `build_text_paths` of src/imm.py: the table `text_paths[lang][uid]` of
    the text files under the text root. The directory walk is not part of
    this model: the files are given as `(lang, directory, file name)`
    triples in the order the walk yields them. */
module TextPaths {
  import opened Wrappers
  import opened Strings

  datatype TextFile = TextFile(lang: string, dir: string, name: string)

  const Html := ".html"

  /** `s.replace('.html', '')`: every `.html`, left to right and without
      overlaps, is removed. */
  function DropHtml(s: string): string
    decreases |s|
  {
    if |s| < 5 then s
    else if s[..5] == Html then DropHtml(s[5..])
    else [s[0]] + DropHtml(s[1..])
  }

  /** `os.path.join(dir, name)` for a relative name. */
  function PathJoin(dir: string, name: string): string
  {
    if dir == [] || dir[|dir| - 1] == '/' then dir + name else dir + "/" + name
  }

  function UidOf(f: TextFile): string { DropHtml(f.name) }

  /** The table after the files of `files`, or the `(lang, uid)` of the
      first file whose key is taken: there the assertion fails. */
  function PathsOf(files: seq<TextFile>): Result<map<string, map<string, string>>, (string, string)>
    decreases |files|
  {
    if files == [] then Ok(map[])
    else
      match PathsOf(files[..|files| - 1])
      case Err(e) => Err(e)
      case Ok(m) =>
        var f := files[|files| - 1];
        var inner := if f.lang in m then m[f.lang] else map[];
        if UidOf(f) in inner then Err((f.lang, UidOf(f)))
        else Ok(m[f.lang := inner[UidOf(f) := PathJoin(f.dir, f.name)]])
  }

  /** No two files share a language and a uid. */
  ghost predicate KeysDistinct(files: seq<TextFile>) {
    forall i, j :: 0 <= i < j < |files| ==>
      files[i].lang != files[j].lang || UidOf(files[i]) != UidOf(files[j])
  }

  /** What an accepted table holds: an entry per file and nothing else. */
  ghost predicate Holds(m: map<string, map<string, string>>, files: seq<TextFile>) {
    && (forall i :: 0 <= i < |files| ==>
          files[i].lang in m && UidOf(files[i]) in m[files[i].lang] &&
          m[files[i].lang][UidOf(files[i])] == PathJoin(files[i].dir, files[i].name))
    && (forall lang, uid :: lang in m && uid in m[lang] ==>
          exists i :: 0 <= i < |files| && files[i].lang == lang && UidOf(files[i]) == uid)
  }

  lemma HoldsSnoc(m: map<string, map<string, string>>, files: seq<TextFile>, f: TextFile)
    requires Holds(m, files)
    requires f.lang !in m || UidOf(f) !in m[f.lang]
    ensures var inner := if f.lang in m then m[f.lang] else map[];
            Holds(m[f.lang := inner[UidOf(f) := PathJoin(f.dir, f.name)]], files + [f])
  {
    var inner := if f.lang in m then m[f.lang] else map[];
    var m' := m[f.lang := inner[UidOf(f) := PathJoin(f.dir, f.name)]];
    var all := files + [f];
    forall i | 0 <= i < |all|
      ensures all[i].lang in m' && UidOf(all[i]) in m'[all[i].lang] &&
              m'[all[i].lang][UidOf(all[i])] == PathJoin(all[i].dir, all[i].name)
    {
      if i < |files| {
        assert all[i] == files[i];
      }
    }
    forall lang, uid | lang in m' && uid in m'[lang]
      ensures exists i :: 0 <= i < |all| && all[i].lang == lang && UidOf(all[i]) == uid
    {
      if lang == f.lang && uid == UidOf(f) {
        assert all[|files|] == f;
      } else {
        assert lang in m && uid in m[lang];
        var i :| 0 <= i < |files| && files[i].lang == lang && UidOf(files[i]) == uid;
        assert all[i] == files[i];
      }
    }
  }

  lemma DistinctSnoc(files: seq<TextFile>, f: TextFile)
    requires KeysDistinct(files)
    requires forall i :: 0 <= i < |files| ==> files[i].lang != f.lang || UidOf(files[i]) != UidOf(f)
    ensures KeysDistinct(files + [f])
  {
    var all := files + [f];
    forall i, j | 0 <= i < j < |all| ensures all[i].lang != all[j].lang || UidOf(all[i]) != UidOf(all[j]) {
      assert all[i] == files[i];
      if j < |files| { assert all[j] == files[j]; }
    }
  }

  /** The table is built exactly when no two files clash; it then holds an
      entry per file, at its language and uid, and nothing else. */
  lemma {:induction false} PathsOfMeaning(files: seq<TextFile>)
    ensures PathsOf(files).Ok? <==> KeysDistinct(files)
    ensures PathsOf(files).Ok? ==> Holds(PathsOf(files).value, files)
    decreases |files|
  {
    if files != [] {
      var init := files[..|files| - 1];
      var f := files[|files| - 1];
      assert files == init + [f];
      PathsOfMeaning(init);
      if PathsOf(init).Ok? {
        var m := PathsOf(init).value;
        if f.lang in m && UidOf(f) in m[f.lang] {
          var i :| 0 <= i < |init| && init[i].lang == f.lang && UidOf(init[i]) == UidOf(f);
          assert files[i] == init[i];
        } else {
          forall i | 0 <= i < |init| ensures init[i].lang != f.lang || UidOf(init[i]) != UidOf(f) { }
          DistinctSnoc(init, f);
          HoldsSnoc(m, init, f);
        }
      } else {
        assert !KeysDistinct(init);
        var i, j :| 0 <= i < j < |init| && init[i].lang == init[j].lang && UidOf(init[i]) == UidOf(init[j]);
        assert files[i] == init[i] && files[j] == init[j];
      }
    }
  }

  /** A name without `.html` in it, with `.html` appended, gives the name
      back: no occurrence can straddle the boundary, as `.html` has its
      only `.` in front. */
  lemma {:induction false} DropHtmlSuffix(u: string)
    requires !Contains(u, Html)
    ensures DropHtml(u + Html) == u
    decreases |u|
  {
    var s := u + Html;
    if u == [] {
      assert s[..5] == Html && s[5..] == [];
    } else {
      assert s[1..] == u[1..] + Html;
      if |u| >= 5 {
        assert s[..5] == u[..5];
        assert !OccursAt(u, Html, 0);
      } else {
        assert s[..5][|u|] == '.' != Html[|u|];
      }
      forall i | 0 <= i <= |u[1..]| - |Html| ensures !OccursAt(u[1..], Html, i) {
        assert u[1..][i..i + 5] == u[i + 1..i + 6];
        assert !OccursAt(u, Html, i + 1);
      }
      DropHtmlSuffix(u[1..]);
      assert s == [u[0]] + s[1..];
    }
  }

  /** The example of the documentation: `sn56.11.html` under `pi` has the
      key `('pi', 'sn56.11')`, whatever its sub-directory. */
  lemma DocExample()
    ensures UidOf(TextFile("pi", "text_root/pi/sn/56", "sn56.11" + Html)) == "sn56.11"
  {
    var u := "sn56.11";
    forall i | 0 <= i <= |u| - |Html| ensures !OccursAt(u, Html, i) {
      assert u[i..i + 5][4] == u[i + 4] != 'l';
    }
    DropHtmlSuffix(u);
  }

  /** The loop of `build_text_paths`: the table, or the key of the first
      file that clashes. */
  method BuildTextPaths(files: seq<TextFile>) returns (r: Result<map<string, map<string, string>>, (string, string)>)
    ensures r == PathsOf(files)
  {
    var paths: map<string, map<string, string>> := map[];
    var i := 0;
    while i < |files|
      invariant 0 <= i <= |files|
      invariant PathsOf(files[..i]) == Ok(paths)
    {
      var f := files[i];
      assert files[..i + 1][..i] == files[..i];
      var inner := if f.lang in paths then paths[f.lang] else map[];
      var uid := DropHtml(f.name);
      if uid in inner {
        r := Err((f.lang, uid));
        PathsErr(files, i + 1);
        return;
      }
      paths := paths[f.lang := inner[uid := PathJoin(f.dir, f.name)]];
      i := i + 1;
    }
    assert files[..|files|] == files;
    r := Ok(paths);
  }

  /** Once a prefix fails, so does the whole list, with the same key. */
  lemma {:induction false} PathsErr(files: seq<TextFile>, k: int)
    requires 0 <= k <= |files| && PathsOf(files[..k]).Err?
    ensures PathsOf(files) == PathsOf(files[..k])
    decreases |files| - k
  {
    if k < |files| {
      assert files[..k + 1][..k] == files[..k];
      PathsErr(files, k + 1);
    } else {
      assert files[..k] == files;
    }
  }
}
