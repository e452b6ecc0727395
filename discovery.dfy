/** Component discovery (`scan_components` in zest-fw-web.php). A directory
    `X` that holds a file `X.php` is a component and is reported by its name;
    any other directory is a category and is searched again, its components
    reported as `X/...`. The directory listing is a tree snapshot: the order
    of `children` is the order `readdir` returns the entries in. */
module Discovery {

  /** A directory entry. `readable` says whether `opendir` succeeds on it. */
  datatype Node =
    | File(name: string)
    | Dir(name: string, readable: bool, children: seq<Node>)

  /** An entry of the listing that the scan looks into: a directory other
      than `.` and `..`. */
  predicate Listed(c: Node)
  {
    c.Dir? && c.name != "." && c.name != ".."
  }

  /** `file_exists("$dir/$name")` for an entry of `dir` (a directory by that
      name counts too). */
  predicate HasChild(dir: Node, name: string)
  {
    dir.Dir? && exists j :: 0 <= j < |dir.children| && dir.children[j].name == name
  }

  /** A component directory: `X/X.php` exists. */
  predicate IsComponentDir(c: Node)
  {
    HasChild(c, c.name + ".php")
  }

  /** Each name of `subs`, prefixed by its category `entry` and a slash. */
  function Qualify(entry: string, subs: seq<string>): (r: seq<string>)
    ensures |r| == |subs|
    ensures forall i :: 0 <= i < |subs| ==> r[i] == entry + "/" + subs[i]
  {
    seq(|subs|, i requires 0 <= i < |subs| => entry + "/" + subs[i])
  }

  /** The names the scan of `node` returns. */
  function Scan(node: Node): seq<string>
    decreases node, 1, 0
  {
    if node.Dir? && node.readable then ScanPrefix(node, |node.children|) else []
  }

  /** What the scan has collected after the first `n` entries of `node`. */
  function ScanPrefix(node: Node, n: nat): seq<string>
    requires node.Dir? && n <= |node.children|
    decreases node, 0, n
  {
    if n == 0 then []
    else
      var c := node.children[n - 1];
      ScanPrefix(node, n - 1) +
        if !Listed(c) then []
        else if IsComponentDir(c) then [c.name]
        else Qualify(c.name, Scan(c))
  }

  /** scan_components, for a directory that exists or not. */
  method ScanComponents(node: Node) returns (components: seq<string>)
    ensures components == Scan(node)
    decreases node
  {
    components := [];
    if node.Dir? && node.readable {
      var i := 0;
      while i < |node.children|
        invariant 0 <= i <= |node.children|
        invariant components == ScanPrefix(node, i)
      {
        var entry := node.children[i];
        if entry.name != "." && entry.name != ".." && entry.Dir? {
          if HasChild(entry, entry.name + ".php") {
            components := components + [entry.name];
          } else {
            var subComponents := ScanComponents(entry);
            var j := 0;
            while j < |subComponents|
              invariant 0 <= j <= |subComponents|
              invariant components == ScanPrefix(node, i) + Qualify(entry.name, subComponents[..j])
            {
              components := components + [entry.name + "/" + subComponents[j]];
              j := j + 1;
            }
            assert subComponents[..j] == subComponents;
          }
        }
        i := i + 1;
      }
    }
  }

  /** The segments joined with slashes. */
  function Join(segs: seq<string>): string
  {
    if segs == [] then ""
    else if |segs| == 1 then segs[0]
    else segs[0] + "/" + Join(segs[1..])
  }

  /** Reference description of a discovered component: the path `segs`
      leads from the readable directory `node` through listed category
      directories (none of them a component) to a component directory. */
  predicate ComponentAt(node: Node, segs: seq<string>)
    decreases node
  {
    && node.Dir? && node.readable && |segs| >= 1
    && exists i :: 0 <= i < |node.children| && Listed(node.children[i]) && node.children[i].name == segs[0] &&
         (if IsComponentDir(node.children[i]) then |segs| == 1 else ComponentAt(node.children[i], segs[1..]))
  }

  /** The scan only ever appends. */
  lemma {:induction false} PrefixKeeps(node: Node, n: nat, m: nat)
    requires node.Dir? && n <= m <= |node.children|
    ensures ScanPrefix(node, n) <= ScanPrefix(node, m)
    decreases m - n
  {
    if n < m {
      PrefixKeeps(node, n, m - 1);
    }
  }

  /** A name in the scan of a prefix comes from one of its entries. */
  lemma {:induction false} PrefixOrigin(node: Node, n: nat, s: string)
    requires node.Dir? && n <= |node.children| && s in ScanPrefix(node, n)
    ensures exists i :: (0 <= i < n && Listed(node.children[i]) &&
      if IsComponentDir(node.children[i]) then s == node.children[i].name
      else s in Qualify(node.children[i].name, Scan(node.children[i])))
  {
    var c := node.children[n - 1];
    if s !in ScanPrefix(node, n - 1) {
      assert Listed(c);
    } else {
      PrefixOrigin(node, n - 1, s);
    }
  }

  /** Every component the reference description admits is found. */
  lemma {:induction false} ScanComplete(node: Node, segs: seq<string>)
    requires ComponentAt(node, segs)
    ensures Join(segs) in Scan(node)
    decreases node
  {
    var i :| 0 <= i < |node.children| && Listed(node.children[i]) && node.children[i].name == segs[0]
      && (if IsComponentDir(node.children[i]) then |segs| == 1 else ComponentAt(node.children[i], segs[1..]));
    var c := node.children[i];
    PrefixKeeps(node, i + 1, |node.children|);
    if IsComponentDir(c) {
      assert Join(segs) in ScanPrefix(node, i + 1);
    } else {
      ScanComplete(c, segs[1..]);
      var t := Join(segs[1..]);
      var k :| 0 <= k < |Scan(c)| && Scan(c)[k] == t;
      assert Qualify(c.name, Scan(c))[k] == Join(segs);
      assert Join(segs) in ScanPrefix(node, i + 1);
    }
  }

  /** Every name found is a component the reference description admits. */
  lemma {:induction false} ScanSound(node: Node, s: string)
    requires s in Scan(node)
    ensures exists segs :: ComponentAt(node, segs) && Join(segs) == s
    decreases node
  {
    PrefixOrigin(node, |node.children|, s);
    var i :| 0 <= i < |node.children| && Listed(node.children[i]) &&
      (if IsComponentDir(node.children[i]) then s == node.children[i].name
       else s in Qualify(node.children[i].name, Scan(node.children[i])));
    var c := node.children[i];
    if IsComponentDir(c) {
      assert ComponentAt(node, [c.name]) && Join([c.name]) == s;
    } else {
      var q := Qualify(c.name, Scan(c));
      var k :| 0 <= k < |q| && q[k] == s;
      ScanSound(c, Scan(c)[k]);
      var segs :| ComponentAt(c, segs) && Join(segs) == Scan(c)[k];
      var full := [c.name] + segs;
      assert full[1..] == segs;
      assert ComponentAt(node, full);
    }
  }

  /** A category directory `forms` holding the component `Input` yields
      `forms/Input`; the `.php` file beside it is not a directory. */
  lemma FormsInputExample()
    ensures Scan(Dir("components", true, [
      File("README.php"),
      Dir("forms", true, [Dir("Input", true, [File("Input.php"), File("Input.css")])])])) == ["forms/Input"]
  {
    var input := Dir("Input", true, [File("Input.php"), File("Input.css")]);
    var forms := Dir("forms", true, [input]);
    assert input.children[0].name == "Input.php";
    assert IsComponentDir(input);
    assert |forms.children[0].name| != |"forms.php"|;
    assert !IsComponentDir(forms);
    assert Scan(forms) == ScanPrefix(forms, 0) + ["Input"] == ["Input"];
    var root := Dir("components", true, [File("README.php"), forms]);
    assert ScanPrefix(root, 1) == [];
    assert "forms" + "/" + "Input" == "forms/Input";
    assert Qualify("forms", ["Input"]) == ["forms/Input"];
  }

  /** A plain file, a directory that cannot be opened and an empty directory
      yield no component. */
  lemma NothingToScan(name: string, children: seq<Node>)
    ensures Scan(File(name)) == []
    ensures Scan(Dir(name, false, children)) == []
    ensures Scan(Dir(name, true, [])) == []
  {
  }

  /** An entry that is a file, `.` or `..` adds nothing to what the scan
      has collected. */
  lemma SkippedEntry(node: Node, n: nat)
    requires node.Dir? && 0 < n <= |node.children| && !Listed(node.children[n - 1])
    ensures ScanPrefix(node, n) == ScanPrefix(node, n - 1)
  {
  }
}
