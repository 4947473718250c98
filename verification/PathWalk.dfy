/**
  Path resolution: a scan over the characters of a path that looks up one component after another, follows
  symbolic links by resolving their text in turn, and takes and drops references on the way.
*/
module PathWalk {

  import opened Common

  type Inode = nat

  type Dirent = nat

  /** What an inode is; a symbolic link has a text, or cannot be read. */
  datatype Kind = Directory | Link(text: string) | BadLink(err: int) | Other

  /**
    What a name leads to: nothing, a directory entry and its inode, an entry whose inode cannot be loaded, or an error.
  */
  datatype Target = Missing(err: int) | Entry(dir: Dirent, ino: Inode) | Broken(dir: Dirent)

  /** The file system as path resolution sees it; creations: what creating a missing name gives. */
  datatype Fs = Fs(kinds: map<Inode, Kind>, entries: map<(Inode, string), Target>,
                   creations: map<(Inode, string), Target>, unreadable: set<Inode>, root: Inode, rootDir: Dirent)

  const ENOENT := -2
  const EIO := -5
  const EACCES := -13
  const ENOTDIR := -20
  const ENAMETOOLONG := -36
  const ELOOP := -40

  datatype Outcome = Err(code: int) | Found(ino: Inode, dir: Option<Dirent>, created: bool)

  function KindOf(fs: Fs, n: Inode): Kind {
    if n in fs.kinds then fs.kinds[n] else Other
  }

  // inode_lookup_dirent
  function LookupName(fs: Fs, n: Inode, name: string): Target {
    if KindOf(fs, n) != Directory then Missing(ENOTDIR)
    else if (n, name) in fs.entries then fs.entries[(n, name)]
    else Missing(ENOENT)
  }

  // __create_last
  function CreateName(fs: Fs, n: Inode, name: string): Target {
    if (n, name) in fs.creations then fs.creations[(n, name)] else Missing(EACCES)
  }

  // ----- the specification

  /** The length of the first component of s. */
  function Word(s: string): (n: nat)
    ensures n <= |s| && (n < |s| ==> s[n] == '/') && '/' !in s[..n]
  {
    if s == "" || s[0] == '/' then 0
    else
      var n := Word(s[1..]);
      assert s[..n + 1] == [s[0]] + s[1..][..n];
      n + 1
  }

  /** The components of a path. */
  function Components(s: string): seq<string>
    decreases |s|
  {
    if s == "" then []
    else if s[0] == '/' then Components(s[1..])
    else [s[..Word(s)]] + Components(s[Word(s)..])
  }

  /** Resolving a path from start at the given symbolic-link depth. */
  function Resolve(fs: Fs, path: string, start: Inode, create: bool, nofollow: bool, depth: nat): Outcome
    requires depth <= 64
    decreases 64 - depth, 3, 0
  {
    if |path| > 255 then Err(ENAMETOOLONG)
    else
      var c := Components(path);
      if path != "" && c == [] then Found(fs.root, Some(fs.rootDir), false)
      else Walk(fs, if path != "" && path[0] == '/' then fs.root else start, c, None, create, nofollow || create, depth)
  }

  /** Walking down the components from n, having come by dir. */
  function Walk(fs: Fs, n: Inode, c: seq<string>, dir: Option<Dirent>, create: bool, nofollow: bool,
                depth: nat): Outcome
    requires depth <= 64
    decreases 64 - depth, 2, |c|
  {
    if c == [] then Found(n, dir, false)
    else
      match One(fs, n, c[0], |c| == 1, create, nofollow, depth)
      case Err(code) => Err(code)
      case Found(next, d, created) =>
        if |c| == 1 then Found(next, d, created) else Walk(fs, next, c[1..], d, create, nofollow, depth)
  }

  /** One component: the inode it leads to. */
  function One(fs: Fs, n: Inode, name: string, last: bool, create: bool, nofollow: bool, depth: nat): Outcome
    requires depth <= 64
    decreases 64 - depth, 1, 0
  {
    if n in fs.unreadable then Err(EACCES)
    else
      var created := last && create && LookupName(fs, n, name).Missing?;
      match if created then CreateName(fs, n, name) else LookupName(fs, n, name)
      case Missing(err) => Err(err)
      case Broken(_) => Err(EIO)
      case Entry(d, next) =>
        if last && nofollow then Found(next, Some(d), created) else Follow(fs, n, d, next, created, depth)
  }

  /** The inode next, reached from n by d; a symbolic link is resolved, unless the links are nested too deep. */
  function Follow(fs: Fs, n: Inode, d: Dirent, next: Inode, created: bool, depth: nat): Outcome
    requires depth <= 64
    decreases 64 - depth, 0, 0
  {
    match KindOf(fs, next)
    case Link(text) =>
      if depth >= 64 then Err(ELOOP)
      else
        (match Resolve(fs, text, n, false, false, depth + 1)
         case Err(code) => Err(code)
         case Found(i, e, _) => Found(i, e, created))
    case BadLink(err) => if depth >= 64 then Err(ELOOP) else Err(err)
    case _ => Found(next, Some(d), created)
  }

  // ----- scanning the characters

  lemma {:induction false} WordMore(s: string, t: string)
    requires t != "" ==> t[0] == '/'
    ensures Word(s + t) == Word(s)
  {
    if s == "" {
      assert s + t == t;
    } else if s[0] != '/' {
      assert (s + t)[1..] == s[1..] + t;
      WordMore(s[1..], t);
    }
  }

  /** A trailing slash makes no difference. */
  lemma {:induction false} TrailingSlash(s: string)
    ensures Components(s + "/") == Components(s)
    decreases |s|
  {
    if s == "" {
      assert s + "/" == "/" && "/"[1..] == "";
    } else if s[0] == '/' {
      assert (s + "/")[1..] == s[1..] + "/";
      TrailingSlash(s[1..]);
    } else {
      WordMore(s, "/");
      var n := Word(s);
      assert (s + "/")[..n] == s[..n] && (s + "/")[n..] == s[n..] + "/";
      TrailingSlash(s[n..]);
    }
  }

  // What is left after a slash still has a component when the path does not end with a slash.
  lemma {:induction false} HasMore(s: string)
    requires s != "" && s[|s| - 1] != '/'
    ensures Components(s) != []
    decreases |s|
  {
    if s[0] == '/' {
      HasMore(s[1..]);
    }
  }

  // the loop that cuts off trailing slashes
  method Trim(path: string) returns (t: string)
    ensures Components(t) == Components(path) && |t| <= |path| && (t == "" <==> path == "")
    ensures t != "" ==> t[0] == path[0] && (|t| > 1 ==> t[|t| - 1] != '/')
  {
    t := path;
    while |t| > 1 && t[|t| - 1] == '/'
      invariant Components(t) == Components(path) && |t| <= |path| && (t == "" <==> path == "")
      invariant t != "" ==> t[0] == path[0]
    {
      var u := t[..|t| - 1];
      assert t == u + "/";
      TrailingSlash(u);
      t := u;
    }
  }

  // strchrc: the end of the component that begins at name
  method Separator(path: string, name: nat) returns (sep: nat)
    requires name <= |path|
    ensures sep == name + Word(path[name..])
  {
    sep := name;
    while sep < |path| && path[sep] != '/'
      invariant name <= sep <= |path| && sep - name + Word(path[sep..]) == Word(path[name..])
    {
      assert path[sep..][1..] == path[sep + 1..];
      sep := sep + 1;
    }
  }

  // ----- references

  function Is(a: nat, b: nat): nat {
    if a == b then 1 else 0
  }

  /** References that an outcome hands out to inode x, and to dirent x. */
  function HandedInode(out: Outcome, want: bool, x: Inode): nat {
    if out.Found? && want then Is(out.ino, x) else 0
  }

  function HeldDirent(dir: Option<Dirent>, x: Dirent): nat {
    if dir.Some? then Is(dir.value, x) else 0
  }

  function HandedDirent(out: Outcome, want: bool, x: Dirent): nat {
    if out.Found? && want then HeldDirent(out.dir, x) else 0
  }

  /** The calling thread's references, seen at one inode and one dirent, whichever they are. */
  class Resolver {
    const ino: Inode
    const dirent: Dirent
    var inodeRefs: nat
    var direntRefs: nat

    // kobj_getref, or a lookup that returns a reference
    method GetInode(n: Inode)
      modifies this
      ensures inodeRefs == old(inodeRefs) + Is(n, ino) && direntRefs == old(direntRefs)
    {
      inodeRefs := inodeRefs + Is(n, ino);
    }

    // inode_put; the reference must be held
    method PutInode(n: Inode)
      requires inodeRefs >= Is(n, ino)
      modifies this
      ensures inodeRefs == old(inodeRefs) - Is(n, ino) && direntRefs == old(direntRefs)
    {
      inodeRefs := inodeRefs - Is(n, ino);
    }

    method GetDirent(d: Dirent)
      modifies this
      ensures direntRefs == old(direntRefs) + Is(d, dirent) && inodeRefs == old(inodeRefs)
    {
      direntRefs := direntRefs + Is(d, dirent);
    }

    method PutDirent(d: Dirent)
      requires direntRefs >= Is(d, dirent)
      modifies this
      ensures direntRefs == old(direntRefs) - Is(d, dirent) && inodeRefs == old(inodeRefs)
    {
      direntRefs := direntRefs - Is(d, dirent);
    }

    // the symbolic-link part of the loop: node, d and next are given up for what the link leads to
    method FollowLink(fs: Fs, node: Inode, d: Dirent, next: Inode, created: bool, depth: nat) returns (out: Outcome)
      requires depth <= 64 && inodeRefs >= Is(node, ino) + Is(next, ino) && direntRefs >= Is(d, dirent)
      requires KindOf(fs, next).Link? || KindOf(fs, next).BadLink?
      modifies this
      ensures out == Follow(fs, node, d, next, created, depth)
      ensures inodeRefs == old(inodeRefs) - Is(node, ino) - Is(next, ino) + HandedInode(out, true, ino)
      ensures direntRefs == old(direntRefs) - Is(d, dirent) + HandedDirent(out, true, dirent)
      decreases 64 - depth, 0
    {
      hide Is, Resolve;
      if depth >= 64 {
        PutInode(node);
        PutDirent(d);
        PutInode(next);
        return Err(ELOOP);
      }
      var k := KindOf(fs, next);
      var r := if k.BadLink? then Err(k.err) else Err(0);
      if k.Link? {
        r := ResolvePath(fs, k.text, node, false, false, depth + 1, true, true);
      }
      PutInode(next);
      PutDirent(d);
      PutInode(node);
      out := if r.Err? then r else Found(r.ino, r.dir, created);
    }

    // the body of the loop of fs_path_resolve, for one component: node and dir are given up for what the component
    // leads to
    method Step(fs: Fs, node: Inode, dir: Option<Dirent>, name: string, last: bool, create: bool, nofollow: bool,
                depth: nat)
      returns (out: Outcome)
      requires depth <= 64 && inodeRefs >= Is(node, ino) && direntRefs >= HeldDirent(dir, dirent)
      modifies this
      ensures out == One(fs, node, name, last, create, nofollow, depth)
      ensures inodeRefs == old(inodeRefs) - Is(node, ino) + HandedInode(out, true, ino)
      ensures direntRefs == old(direntRefs) - HeldDirent(dir, dirent) + HandedDirent(out, true, dirent)
      decreases 64 - depth, 1
    {
      hide LookupName, CreateName, Is, Follow;
      if dir.Some? {
        PutDirent(dir.value);
      }
      if node in fs.unreadable {
        PutInode(node);
        return Err(EACCES);
      }
      var t, created := LookupName(fs, node, name), false;
      if t.Missing? && last && create {
        t, created := CreateName(fs, node, name), true;
      }
      match t
      case Missing(err) =>
        PutInode(node);
        return Err(err);
      case Broken(d) =>
        GetDirent(d);
        PutInode(node);
        PutDirent(d);
        return Err(EIO);
      case Entry(d, next) =>
        GetDirent(d);
        GetInode(next);
        var k := KindOf(fs, next);
        if (k.Link? || k.BadLink?) && !(last && nofollow) {
          out := FollowLink(fs, node, d, next, created, depth);
          return;
        }
        if !(last && nofollow) {
          NotALink(fs, node, d, next, created, depth);
        }
        PutInode(node);
        out := Found(next, Some(d), created);
    }

    // fs_path_resolve
    method ResolvePath(fs: Fs, path: string, start: Inode, create: bool, nofollow: bool, depth: nat, wantDir: bool,
                       wantIno: bool)
      returns (out: Outcome)
      requires depth <= 64
      modifies this
      ensures out == Resolve(fs, path, start, create, nofollow, depth)
      ensures inodeRefs == old(inodeRefs) + HandedInode(out, wantIno, ino)
      ensures direntRefs == old(direntRefs) + HandedDirent(out, wantDir, dirent)
      decreases 64 - depth, 3
    {
      if |path| > 255 {
        return Err(ENAMETOOLONG);
      }
      hide Walk, Components, Is;
      var p := Trim(path);
      var node, name := start, 0;
      GetInode(start);
      if p != "" && p[0] == '/' {
        PutInode(start);
        node, name := fs.root, 1;
        GetInode(node);
        OnlySlashes(p);
        if |p| == 1 {
          if wantDir {
            GetDirent(fs.rootDir);
          }
          if !wantIno {
            PutInode(node);
          }
          return Found(node, Some(fs.rootDir), false);
        }
      } else {
        NoSlash(p);
      }
      out := WalkPath(fs, p, name, node, create, nofollow || create, depth);
      if out.Found? {
        if !wantDir && out.dir.Some? {
          PutDirent(out.dir.value);
        }
        if !wantIno {
          PutInode(out.ino);
        }
      }
    }

    // the loop over the components of p from position start on; from is given up for where they lead
    method WalkPath(fs: Fs, p: string, start: nat, from: Inode, create: bool, nofollow: bool,
                    depth: nat) returns (out: Outcome)
      requires depth <= 64 && start <= |p| && inodeRefs >= Is(from, ino) && (start < |p| ==> p[|p| - 1] != '/')
      modifies this
      ensures out == Walk(fs, from, Components(p[start..]), None, create, nofollow, depth)
      ensures inodeRefs == old(inodeRefs) - Is(from, ino) + HandedInode(out, true, ino)
      ensures direntRefs == old(direntRefs) + HandedDirent(out, true, dirent)
      decreases 64 - depth, 2
    {
      hide Is, One, Walk, Components;
      AheadStart(fs, from, Components(p[start..]), create, nofollow, depth);
      var node, dir, name: nat, created, sep: nat := from, None, start, false, 0;
      while true
        invariant start <= name <= |p| && inodeRefs == old(inodeRefs) - Is(from, ino) + Is(node, ino)
        invariant direntRefs == old(direntRefs) + HeldDirent(dir, dirent) && !created
        invariant Ahead(fs, node, Components(p[name..]), dir, created, create, nofollow, depth)
                  == Walk(fs, from, Components(p[start..]), None, create, nofollow, depth)
        decreases |p| - name
      {
        sep := Separator(p, name);
        NextComponent(p, name, sep);
        if sep != name {
          var last := sep == |p|;
          var r := Step(fs, node, dir, p[name..sep], last, create, nofollow, depth);
          AheadStep(fs, node, Components(p[name..]), dir, created, create, nofollow, depth);
          OnlyLastCreated(fs, node, p[name..sep], last, create, nofollow, depth);
          if r.Err? {
            return r;
          }
          node, dir, created := r.ino, r.dir, r.created;
        }
        if sep == |p| {
          break;
        }
        name := sep + 1;
      }
      out := Found(node, dir, created);
    }
  }

  // Where the walk goes on from; created tells that the last component has just been created.
  function Ahead(fs: Fs, n: Inode, c: seq<string>, dir: Option<Dirent>, created: bool, create: bool, nofollow: bool,
                 depth: nat): Outcome
    requires depth <= 64
  {
    if c == [] then Found(n, dir, created) else Walk(fs, n, c, dir, create, nofollow, depth)
  }

  lemma AheadStep(fs: Fs, n: Inode, c: seq<string>, dir: Option<Dirent>, created: bool, create: bool, nofollow: bool,
                  depth: nat)
    requires depth <= 64 && c != []
    ensures Ahead(fs, n, c, dir, created, create, nofollow, depth)
            == match One(fs, n, c[0], |c| == 1, create, nofollow, depth)
               case Err(code) => Err(code)
               case Found(next, d, made) => Ahead(fs, next, c[1..], d, made, create, nofollow, depth)
  {
    hide One;
  }

  lemma AheadStart(fs: Fs, n: Inode, c: seq<string>, create: bool, nofollow: bool, depth: nat)
    requires depth <= 64
    ensures Ahead(fs, n, c, None, false, create, nofollow, depth) == Walk(fs, n, c, None, create, nofollow, depth)
  {
    hide One;
  }

  lemma OnlyLastCreated(fs: Fs, n: Inode, name: string, last: bool, create: bool, nofollow: bool, depth: nat)
    requires depth <= 64
    ensures var r := One(fs, n, name, last, create, nofollow, depth); r.Found? && r.created ==> last
  {
    hide Resolve;
  }

  lemma NotALink(fs: Fs, n: Inode, d: Dirent, next: Inode, created: bool, depth: nat)
    requires depth <= 64 && !KindOf(fs, next).Link? && !KindOf(fs, next).BadLink?
    ensures Follow(fs, n, d, next, created, depth) == Found(next, Some(d), created)
  {
  }

  // The component between name and sep, and what comes after it.
  lemma NextComponent(p: string, name: nat, sep: nat)
    requires name <= |p| && sep == name + Word(p[name..])
    ensures sep <= |p|
    ensures sep != name ==> Components(p[name..]) == [p[name..sep]] + Components(p[sep..])
    ensures sep < |p| ==> Components(p[sep..]) == Components(p[sep + 1..])
    ensures sep < |p| && p[|p| - 1] != '/' ==> Components(p[sep..]) != []
    ensures sep == |p| ==> Components(p[sep..]) == []
  {
    var s := p[name..];
    assert s[Word(s)..] == p[sep..] && s[..Word(s)] == p[name..sep];
    if sep < |p| {
      assert p[sep..][1..] == p[sep + 1..];
      if p[|p| - 1] != '/' {
        HasMore(p[sep..]);
      }
    }
  }

  lemma OnlySlashes(p: string)
    requires p != "" && p[0] == '/' && (|p| > 1 ==> p[|p| - 1] != '/')
    ensures Components(p) == Components(p[1..]) && (Components(p) == [] <==> |p| == 1)
  {
    if |p| > 1 {
      HasMore(p[1..]);
    }
  }

  lemma NoSlash(p: string)
    requires p == "" || p[0] != '/'
    ensures p[0..] == p && (p != "" ==> Components(p) != [])
  {
  }
}
