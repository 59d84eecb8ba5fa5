/**
  The parts of Go's `path/filepath` on a Unix system that the audit trail
  goes through: `Clean`, `Join` (which cleans what it joins) and `Dir`.

  Clean works on the slash-separated elements of a path: empty and "."
  elements are dropped, a ".." removes the element kept before it (or, with
  nothing to remove, is kept in a relative path and dropped in a rooted
  one), and the kept elements are joined again with single slashes.
*/
module Paths {
  import opened Strings

  /** The elements of a slash-separated path, empty ones included: "a//b/" has "a", "", "b" and "". */
  function Split(path: string): (elems: seq<string>)
    ensures |elems| >= 1
    ensures forall i | 0 <= i < |elems| :: NoChar(elems[i], '/')
    decreases |path|
  {
    if |path| == 0 then [""]
    else
      var rest := Split(path[1..]);
      if path[0] == '/' then [""] + rest
      else
        var first := [path[0]] + rest[0];
        assert NoChar(first, '/') by {
          NoCharConcat([path[0]], rest[0], '/');
        }
        [first] + rest[1..]
  }

  /** A separator splits a path into the elements before it and the elements after it. */
  lemma {:induction false} SplitConcat(a: string, b: string)
    ensures Split(a + "/" + b) == Split(a) + Split(b)
    decreases |a|
  {
    if |a| == 0 {
      assert a + "/" + b == "/" + b;
      assert ("/" + b)[1..] == b;
    } else {
      assert (a + "/" + b)[0] == a[0];
      assert (a + "/" + b)[1..] == a[1..] + "/" + b;
      SplitConcat(a[1..], b);
    }
  }

  /** A path without a separator is a single element. */
  lemma {:induction false} SplitNoSlash(s: string)
    requires NoChar(s, '/')
    ensures Split(s) == [s]
    decreases |s|
  {
    if |s| > 0 {
      SplitNoSlash(s[1..]);
      assert s == [s[0]] + s[1..];
    }
  }

  /** Joining the elements with "/" gives the path back. */
  lemma {:induction false} SplitJoin(path: string)
    ensures Join(Split(path), "/") == path
    decreases |path|
  {
    if |path| > 0 {
      SplitJoin(path[1..]);
      var rest := Split(path[1..]);
      if path[0] == '/' {
        assert ([""] + rest)[1..] == rest;
      } else if |rest| > 1 {
        assert Join(rest, "/") == rest[0] + "/" + Join(rest[1..], "/");
      }
      assert path == [path[0]] + path[1..];
    }
  }

  /** Splitting elements joined with "/" gives the elements back. */
  lemma {:induction false} JoinSplit(elems: seq<string>)
    requires |elems| >= 1
    requires forall i | 0 <= i < |elems| :: NoChar(elems[i], '/')
    ensures Split(Join(elems, "/")) == elems
    decreases |elems|
  {
    SplitNoSlash(elems[0]);
    if |elems| > 1 {
      JoinSplit(elems[1..]);
      SplitConcat(elems[0], Join(elems[1..], "/"));
      assert elems == [elems[0]] + elems[1..];
    }
  }

  predicate IsRooted(path: string) {
    |path| > 0 && path[0] == '/'
  }

  /** An element Clean keeps as it is. */
  predicate Normal(elem: string) {
    elem != "" && elem != "." && elem != ".."
  }

  /** One element of Clean's scan, `kept` being the elements kept so far. */
  function Step(kept: seq<string>, elem: string, rooted: bool): seq<string> {
    if elem == "" || elem == "." then kept
    else if elem == ".." then
      if |kept| > 0 && kept[|kept| - 1] != ".." then kept[..|kept| - 1]
      else if rooted then kept
      else kept + [elem]
    else kept + [elem]
  }

  /** Clean's scan over `elems`, starting from `kept`. */
  function Scan(kept: seq<string>, elems: seq<string>, rooted: bool): seq<string>
    decreases |elems|
  {
    if |elems| == 0 then kept else Scan(Step(kept, elems[0], rooted), elems[1..], rooted)
  }

  /** The kept elements as a path: "/" before a rooted one, "." for nothing kept. */
  function Render(kept: seq<string>, rooted: bool): string {
    if rooted then "/" + Join(kept, "/")
    else if |kept| == 0 then "."
    else Join(kept, "/")
  }

  /** filepath.Clean */
  function Clean(path: string): (r: string)
    ensures r != ""
    ensures path == "" ==> r == "."
  {
    var rooted := IsRooted(path);
    var kept := Scan([], Split(path), rooted);
    ScanCanonical([], Split(path), rooted);
    if path == "" then ScanNothing(rooted); Render(kept, rooted)
    else if |kept| > 0 then JoinKept(kept, rooted); Render(kept, rooted)
    else Render(kept, rooted)
  }

  /** The empty path has one empty element, which the scan drops. */
  lemma ScanNothing(rooted: bool)
    ensures Split("") == [""] && Scan([], [""], rooted) == []
  {
    assert [""][1..] == [];
  }

  /**
    What Clean's scan can produce: no empty, "." or slashed element, and ".."
    only at the start of a relative path.
  */
  predicate Canonical(kept: seq<string>, rooted: bool) {
    forall i | 0 <= i < |kept| ::
      kept[i] != "" && kept[i] != "." && NoChar(kept[i], '/')
      && (kept[i] == ".." ==> !rooted && forall j | 0 <= j < i :: kept[j] == "..")
  }

  lemma StepCanonical(kept: seq<string>, elem: string, rooted: bool)
    requires Canonical(kept, rooted) && NoChar(elem, '/')
    ensures Canonical(Step(kept, elem, rooted), rooted)
  {
    if elem == ".." && !(|kept| > 0 && kept[|kept| - 1] != "..") && !rooted {
      assert forall j | 0 <= j < |kept| :: kept[j] == "..";
    }
  }

  lemma {:induction false} ScanCanonical(kept: seq<string>, elems: seq<string>, rooted: bool)
    requires Canonical(kept, rooted)
    requires forall i | 0 <= i < |elems| :: NoChar(elems[i], '/')
    ensures Canonical(Scan(kept, elems, rooted), rooted)
    decreases |elems|
  {
    if |elems| > 0 {
      StepCanonical(kept, elems[0], rooted);
      ScanCanonical(Step(kept, elems[0], rooted), elems[1..], rooted);
    }
  }

  /** Scanning one list after another is scanning their concatenation. */
  lemma {:induction false} ScanConcat(kept: seq<string>, xs: seq<string>, ys: seq<string>, rooted: bool)
    ensures Scan(kept, xs + ys, rooted) == Scan(Scan(kept, xs, rooted), ys, rooted)
    decreases |xs|
  {
    if |xs| == 0 {
      assert xs + ys == ys;
    } else {
      assert (xs + ys)[0] == xs[0];
      assert (xs + ys)[1..] == xs[1..] + ys;
      ScanConcat(Step(kept, xs[0], rooted), xs[1..], ys, rooted);
    }
  }

  /** Normal elements are all kept, in order. */
  lemma {:induction false} ScanNormal(kept: seq<string>, elems: seq<string>, rooted: bool)
    requires forall i | 0 <= i < |elems| :: Normal(elems[i])
    ensures Scan(kept, elems, rooted) == kept + elems
    decreases |elems|
  {
    if |elems| > 0 {
      ScanNormal(kept + [elems[0]], elems[1..], rooted);
      assert kept + [elems[0]] + elems[1..] == kept + elems;
    }
  }

  /** Scanning what is already canonical keeps all of it. */
  lemma {:induction false} ScanFixed(kept: seq<string>, elems: seq<string>, rooted: bool)
    requires Canonical(kept + elems, rooted)
    ensures Scan(kept, elems, rooted) == kept + elems
    decreases |elems|
  {
    if |elems| > 0 {
      var e := elems[0];
      assert (kept + elems)[|kept|] == e;
      if e == ".." && |kept| > 0 {
        assert (kept + elems)[|kept| - 1] == kept[|kept| - 1];
      }
      assert Step(kept, e, rooted) == kept + [e];
      assert (kept + [e]) + elems[1..] == kept + elems;
      ScanFixed(kept + [e], elems[1..], rooted);
    }
  }

  /** The text of canonical elements: non-empty, not "." and not starting with a slash. */
  lemma JoinKept(kept: seq<string>, rooted: bool)
    requires |kept| > 0 && Canonical(kept, rooted)
    ensures |Join(kept, "/")| > 0 && Join(kept, "/")[0] != '/' && Join(kept, "/") != "."
  {
    assert kept[0] != "" && kept[0] != "." && NoChar(kept[0], '/');
    if |kept| > 1 {
      assert Join(kept, "/") == kept[0] + "/" + Join(kept[1..], "/");
      assert Join(kept, "/")[0] == kept[0][0];
    }
  }

  /** Rendering canonical elements and cleaning the text gives the same text. */
  lemma CleanRender(kept: seq<string>, rooted: bool)
    requires Canonical(kept, rooted)
    ensures Clean(Render(kept, rooted)) == Render(kept, rooted)
  {
    if rooted {
      CleanRenderRooted(kept);
    } else if |kept| == 0 {
      SplitNoSlash(".");
      assert Scan([], ["."], false) == [];
    } else {
      JoinKept(kept, false);
      JoinSplit(kept);
      ScanFixed([], kept, false);
      assert [] + kept == kept;
    }
  }

  lemma CleanRenderRooted(kept: seq<string>)
    requires Canonical(kept, true)
    ensures Clean(Render(kept, true)) == Render(kept, true)
  {
    var text := Join(kept, "/");
    assert Render(kept, true) == "" + "/" + text;
    SplitConcat("", text);
    ScanConcat([], [""], Split(text), true);
    assert Scan([], [""], true) == [];
    if |kept| > 0 {
      JoinSplit(kept);
      ScanFixed([], kept, true);
      assert [] + kept == kept;
    } else {
      assert Split("") == [""];
      assert Scan([], [""], true) == [];
    }
  }

  /** Clean is idempotent. */
  lemma CleanIdempotent(path: string)
    ensures Clean(Clean(path)) == Clean(path)
  {
    var rooted := IsRooted(path);
    ScanCanonical([], Split(path), rooted);
    CleanRender(Scan([], Split(path), rooted), rooted);
  }

  /** A trailing slash makes no difference to a non-empty path. */
  lemma CleanTrailingSlash(path: string)
    requires path != ""
    ensures Clean(path + "/") == Clean(path)
  {
    assert path + "/" == path + "/" + "";
    SplitConcat(path, "");
    ScanConcat([], Split(path), [""], IsRooted(path));
    assert (path + "/")[0] == path[0];
  }

  /**
    A relative path whose elements are all normal: no empty element (so no
    leading, doubled or trailing slash), no "." and no "..".
  */
  predicate Plain(path: string) {
    forall i | 0 <= i < |Split(path)| :: Normal(Split(path)[i])
  }

  /** Two normal elements joined by a slash make a plain path. */
  lemma TwoElements(a: string, b: string)
    requires Normal(a) && Normal(b) && NoChar(a, '/') && NoChar(b, '/')
    ensures Plain(a + "/" + b)
  {
    SplitNoSlash(a);
    SplitNoSlash(b);
    SplitConcat(a, b);
    assert Split(a + "/" + b) == [a, b];
  }

  /** A rooted path's first element is empty. */
  lemma SplitRooted(path: string)
    ensures IsRooted(path) ==> Split(path)[0] == ""
  {
  }

  /** A single normal element is a plain path. */
  lemma PlainElement(elem: string)
    requires Normal(elem) && NoChar(elem, '/')
    ensures Plain(elem)
  {
    SplitNoSlash(elem);
  }

  /** A plain path is already clean. */
  lemma PlainClean(path: string)
    requires Plain(path)
    ensures Clean(path) == path
  {
    var elems := Split(path);
    assert Normal(elems[0]);
    SplitRooted(path);
    ScanNormal([], elems, false);
    assert [] + elems == elems;
    SplitJoin(path);
  }

  /** filepath.Join of two elements: the non-empty ones joined by "/", cleaned; "" when both are empty. */
  function PathJoin(dir: string, name: string): (r: string)
    ensures r == "" <==> dir == "" && name == ""
  {
    if dir != "" then Clean(dir + "/" + name)
    else if name != "" then Clean(name)
    else ""
  }

  /** What goes before a name joined under the cleaned directory `c`: nothing under ".", else `c` ending in a slash. */
  function Prefix(c: string): string {
    if c == "." then "" else if c == "/" then c else c + "/"
  }

  /** What PathJoin puts before a plain name: the cleaned directory and a slash; nothing for "" or ".". */
  function Under(dir: string): string {
    if dir == "" then "" else Prefix(Clean(dir))
  }

  /** Rendering more elements after canonical ones appends their text to the prefix of the first ones. */
  lemma RenderAppend(kept: seq<string>, elems: seq<string>, rooted: bool)
    requires Canonical(kept, rooted) && |elems| > 0
    ensures Render(kept + elems, rooted) == Prefix(Render(kept, rooted)) + Join(elems, "/")
  {
    if |kept| > 0 {
      JoinKept(kept, rooted);
      RenderAppendText(kept, elems, rooted);
    } else {
      RenderAppendNone(kept, elems, rooted);
    }
  }

  /** RenderAppend with nothing kept: "/" before a rooted text, nothing before a relative one. */
  lemma RenderAppendNone(kept: seq<string>, elems: seq<string>, rooted: bool)
    requires |kept| == 0 && |elems| > 0
    ensures Render(kept + elems, rooted) == Prefix(Render(kept, rooted)) + Join(elems, "/")
  {
    assert kept + elems == elems;
  }

  /** RenderAppend for kept elements whose joined text is neither empty, nor ".", nor rooted. */
  lemma RenderAppendText(kept: seq<string>, elems: seq<string>, rooted: bool)
    requires |kept| > 0 && |elems| > 0
    requires |Join(kept, "/")| > 0 && Join(kept, "/")[0] != '/' && Join(kept, "/") != "."
    ensures Render(kept + elems, rooted) == Prefix(Render(kept, rooted)) + Join(elems, "/")
  {
    JoinAppend(kept, elems, "/");
    PrefixAppend(Join(kept, "/"), Join(elems, "/"), rooted);
  }

  /** The prefix of a rendered non-empty relative text, rooted or not, is that rendering and a slash. */
  lemma PrefixAppend(text: string, tail: string, rooted: bool)
    requires |text| > 0 && text[0] != '/' && text != "."
    ensures rooted ==> Prefix("/" + text) + tail == "/" + (text + "/" + tail)
    ensures !rooted ==> Prefix(text) + tail == text + "/" + tail
  {
    assert |"/" + text| > 1;
  }

  /** Joining a plain name appends it to the cleaned directory. */
  lemma JoinPlain(dir: string, name: string)
    requires Plain(name)
    ensures PathJoin(dir, name) == Under(dir) + name
  {
    if dir == "" {
      PlainClean(name);
    } else {
      var rooted := IsRooted(dir);
      var kept := Scan([], Split(dir), rooted);
      var elems := Split(name);
      SplitConcat(dir, name);
      assert (dir + "/" + name)[0] == dir[0];
      ScanConcat([], Split(dir), elems, rooted);
      ScanNormal(kept, elems, rooted);
      ScanCanonical([], Split(dir), rooted);
      SplitJoin(name);
      assert Clean(dir + "/" + name) == Render(kept + elems, rooted);
      assert Clean(dir) == Render(kept, rooted);
      RenderAppend(kept, elems, rooted);
    }
  }

  /** Under one directory, distinct plain names join to distinct paths. */
  lemma PathJoinInjective(dir: string, name1: string, name2: string)
    requires Plain(name1) && Plain(name2)
    requires PathJoin(dir, name1) == PathJoin(dir, name2)
    ensures name1 == name2
  {
    JoinPlain(dir, name1);
    JoinPlain(dir, name2);
    var u := Under(dir);
    assert name1 == (u + name1)[|u|..];
    assert name2 == (u + name2)[|u|..];
  }

  /** A "./" in front of a name is cleaned away: both spellings join to one path. */
  lemma DotElementDropped(dir: string, name: string)
    requires Plain(name)
    ensures PathJoin(dir, "./" + name) == PathJoin(dir, name)
  {
    var elems := Split(name);
    assert "./" + name == "." + "/" + name;
    SplitNoSlash(".");
    SplitConcat(".", name);
    assert Split("./" + name) == ["."] + elems;
    ScanConcat([], ["."], elems, false);
    if dir == "" {
      assert !IsRooted("./" + name);
      assert Scan([], Split("./" + name), false) == Scan([], elems, false);
      assert !IsRooted(name) by {
        assert Normal(elems[0]);
      }
    } else {
      var rooted := IsRooted(dir);
      SplitConcat(dir, "./" + name);
      SplitConcat(dir, name);
      assert (dir + "/" + ("./" + name))[0] == dir[0] && (dir + "/" + name)[0] == dir[0];
      var kept := Scan([], Split(dir), rooted);
      ScanConcat([], Split(dir), ["."] + elems, rooted);
      ScanConcat([], Split(dir), elems, rooted);
      ScanConcat(kept, ["."], elems, rooted);
    }
  }

  /** Joining "." names the directory itself, cleaned. */
  lemma JoinDot(dir: string)
    requires dir != ""
    ensures PathJoin(dir, ".") == Clean(dir)
  {
    var rooted := IsRooted(dir);
    SplitNoSlash(".");
    SplitConcat(dir, ".");
    assert (dir + "/" + ".")[0] == dir[0];
    ScanConcat([], Split(dir), ["."], rooted);
    var kept := Scan([], Split(dir), rooted);
    assert Scan(kept, ["."], rooted) == kept;
  }

  /** The path up to and including its last slash; "" when there is none. */
  function UpToLastSlash(path: string): (r: string)
    ensures |r| <= |path| && r == path[..|r|]
    ensures r == "" || r[|r| - 1] == '/'
    decreases |path|
  {
    if |path| == 0 then ""
    else if path[|path| - 1] == '/' then path
    else UpToLastSlash(path[..|path| - 1])
  }

  /** filepath.Dir: the path up to its last slash, cleaned; "." when there is no slash. */
  function Dir(path: string): (r: string)
    ensures NoChar(path, '/') ==> r == "."
  {
    Clean(UpToLastSlash(path))
  }

  lemma {:induction false} UpToLastSlashAfter(prefix: string, name: string)
    requires prefix == "" || prefix[|prefix| - 1] == '/'
    requires NoChar(name, '/')
    ensures UpToLastSlash(prefix + name) == prefix
    decreases |name|
  {
    if |name| > 0 {
      assert (prefix + name)[..|prefix + name| - 1] == prefix + name[..|name| - 1];
      UpToLastSlashAfter(prefix, name[..|name| - 1]);
    } else {
      assert prefix + name == prefix;
    }
  }

  /** The parent of a single-element name joined under a directory is that directory, cleaned. */
  lemma DirOfJoin(dir: string, name: string)
    requires Normal(name) && NoChar(name, '/')
    ensures Dir(PathJoin(dir, name)) == Clean(dir)
  {
    SplitNoSlash(name);
    JoinPlain(dir, name);
    var u := Under(dir);
    UpToLastSlashAfter(u, name);
    if dir == "" || Clean(dir) == "." {
      assert Split("") == [""];
    } else if Clean(dir) == "/" {
      assert "/" == "" + "/" + "";
      SplitConcat("", "");
    } else {
      CleanTrailingSlash(Clean(dir));
      CleanIdempotent(dir);
    }
  }
}
