/** The attachment registry (`get_attachment_path` in exitwp.py): for each
    image directory, the local file name chosen for every source URL, with
    `-1`, `-2`, ... inserted before the extension to keep names apart.

    Splitting a URL into the root and extension of its base name is done by
    the URL and path libraries; the model takes that split as input. */
module Attachments {
  import opened Decimal
  import opened Candidates
  import opened Tables

  /** directory -> source URL -> file name */
  type Registry = Table

  /** The file name a source got and the registry after the call. */
  datatype Placement = Placement(name: string, registry: Registry)

  /** An empty base-name root is replaced by `1`. */
  function FileRoot(root: string): (r: string)
    ensures r != ""
    ensures root != "" ==> r == root
    ensures root == "" ==> r == "1"
  {
    if root == "" then "1" else root
  }

  /** The local file name of image `src` in directory `dir`, whose URL base
      name splits into `root` and `ext`. */
  function PlaceAttachment(reg: Registry, dir: string, src: string, root: string, ext: string): (r: Placement)
    ensures dir in r.registry && src in r.registry[dir] && r.registry[dir][src] == r.name
    ensures src in Inner(reg, dir) ==> r.name == reg[dir][src] && r.registry == reg
    ensures src !in Inner(reg, dir) ==> r.name !in Inner(reg, dir).Values
    ensures src !in Inner(reg, dir) ==> r.registry == reg[dir := Inner(reg, dir)[src := r.name]]
    ensures src !in Inner(reg, dir) && FileRoot(root) + ext !in Inner(reg, dir).Values ==> r.name == FileRoot(root) + ext
    ensures src !in Inner(reg, dir) && FileRoot(root) + ext in Inner(reg, dir).Values ==>
              exists k: nat :: k >= 1 && r.name == FileRoot(root) + "-" + NatToString(k) + ext
                && forall m :: 1 <= m < k ==> Candidate(FileRoot(root) + "-", m, ext) in Inner(reg, dir).Values
    ensures AllInjective(reg) ==> AllInjective(r.registry)
    ensures Extends(reg, r.registry)
  {
    var files := Inner(reg, dir);
    if src in files then Placement(files[src], reg)
    else
      var stem := FileRoot(root);
      var name :=
        if stem + ext !in files.Values then stem + ext
        else
          var k := FirstFree(files.Values, stem + "-", ext, 1);
          assert Candidate(stem + "-", k, ext) == stem + "-" + NatToString(k) + ext;
          Candidate(stem + "-", k, ext);
      AddFresh(reg, dir, src, name);
      Placement(name, reg[dir := files[src := name]])
  }

  /** Asking again for a source already placed returns the same name and
      leaves the registry alone. */
  lemma PlaceIdempotent(reg: Registry, dir: string, src: string, root: string, ext: string, root2: string, ext2: string)
    ensures var p := PlaceAttachment(reg, dir, src, root, ext);
            PlaceAttachment(p.registry, dir, src, root2, ext2) == p
  {
  }

  /** Two different images of one directory whose URLs share a base name get
      `a.png` and `a-1.png`. */
  lemma SameBaseNameSeparated()
    ensures var p := PlaceAttachment(map[], "post", "http://x/1/a.png", "a", ".png");
            var q := PlaceAttachment(p.registry, "post", "http://x/2/a.png", "a", ".png");
            p.name == "a.png" && q.name == "a-1.png"
  {
    var p := PlaceAttachment(map[], "post", "http://x/1/a.png", "a", ".png");
    assert FileRoot("a") + ".png" == "a.png";
    assert p.name == "a.png";
    assert p.registry == map["post" := map["http://x/1/a.png" := "a.png"]];
    assert p.registry["post"].Values == {"a.png"};
    assert Candidate("a-", 1, ".png") == "a-1.png";
    assert FirstFree({"a.png"}, "a-", ".png", 1) == 1;
  }
}
