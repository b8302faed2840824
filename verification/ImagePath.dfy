/** Looking up a guest path in an image (`ImageRoot::host_path` in `crates/aim-android-init/src/image.rs`):
    symlinks are followed component by component relative to the guest's root.

    Paths are the components below the root; `links` are the image's symlinks and their targets. */
module ImagePath {

  type Name = string
  type Path = seq<Name>
  type Links = map<Path, string>

  const MAX_SYMLINKS: nat := 40

  const HERE: Name := "."
  const UP: Name := ".."

  // ---- components ----

  /** The part before the first slash, and what follows it. */
  function Head(s: string): string {
    if s == [] || s[0] == '/' then [] else [s[0]] + Head(s[1..])
  }

  function Rest(s: string): (r: string)
    ensures s != [] ==> |r| < |s|
  {
    if s == [] then [] else if s[0] == '/' then s[1..] else Rest(s[1..])
  }

  /** `components`: the parts between slashes that are not empty. */
  function Components(s: string): (r: Path)
    ensures forall c {:trigger c in r} :: c in r ==> c != [] && '/' !in c
    decreases |s|
  {
    if s == [] then []
    else
      HeadHasNoSlash(s);
      (if Head(s) == [] then [] else [Head(s)]) + Components(Rest(s))
  }

  lemma {:induction false} HeadHasNoSlash(s: string)
    ensures '/' !in Head(s)
  {
    if s != [] && s[0] != '/' {
      HeadHasNoSlash(s[1..]);
    }
  }

  lemma {:induction false} HeadUpTo(a: string, b: string)
    requires '/' !in a
    ensures Head(a + ['/'] + b) == a && Rest(a + ['/'] + b) == b
    ensures Head(a) == a && Rest(a) == []
  {
    var s := a + ['/'] + b;
    if a == [] {
      assert s[0] == '/' && s[1..] == b;
    } else {
      assert s[0] == a[0] && s[1..] == a[1..] + ['/'] + b;
      HeadUpTo(a[1..], b);
    }
  }

  lemma {:induction false} HeadAndRest(s: string)
    ensures if '/' in s then s == Head(s) + ['/'] + Rest(s) else Head(s) == s && Rest(s) == []
    ensures '/' !in Head(s)
  {
    if s != [] && s[0] != '/' {
      HeadAndRest(s[1..]);
      assert s == [s[0]] + s[1..];
    }
  }

  /** A name is one component, */
  lemma NameIsComponent(c: string)
    requires c != [] && '/' !in c
    ensures Components(c) == [c]
  {
    HeadUpTo(c, []);
  }

  /** the empty path has none, */
  lemma NoComponents()
    ensures Components("") == []
  {
  }

  /** and a slash divides. Nothing else has these three properties. */
  lemma {:induction false} SlashDivides(a: string, b: string)
    ensures Components(a + "/" + b) == Components(a) + Components(b)
    decreases |a|
  {
    var s := a + ['/'] + b;
    HeadAndRest(a);
    if '/' in a {
      var h, r := Head(a), Rest(a);
      assert s == h + ['/'] + (r + ['/'] + b);
      HeadUpTo(h, r + ['/'] + b);
      SlashDivides(r, b);
    } else {
      HeadUpTo(a, b);
      if a != [] {
        NameIsComponent(a);
      }
    }
  }

  lemma {:induction false} ComponentsAreDetermined(f: string -> Path, s: string)
    requires f("") == [] && forall c {:trigger f(c)} :: c != [] && '/' !in c ==> f(c) == [c]
    requires forall a, b {:trigger f(a), f(b)} :: f(a + "/" + b) == f(a) + f(b)
    ensures f(s) == Components(s)
    decreases |s|
  {
    HeadAndRest(s);
    if '/' in s {
      var h, r := Head(s), Rest(s);
      assert s == h + "/" + r;
      assert f(s) == f(h) + f(r);
      ComponentsAreDetermined(f, r);
      SlashDivides(h, r);
      if h != [] {
        NameIsComponent(h);
      }
    } else if s != [] {
      NameIsComponent(s);
    }
  }

  /** The path that names some components from the root. */
  function Slashed(names: Path): string {
    if names == [] then "" else Slashed(names[..|names| - 1]) + "/" + names[|names| - 1]
  }

  lemma {:induction false} SlashedComponents(names: Path)
    requires forall c {:trigger c in names} :: c in names ==> c != [] && '/' !in c
    ensures Components(Slashed(names)) == names
  {
    hide Components;
    if names == [] {
      NoComponents();
    } else {
      var last := |names| - 1;
      var front := names[..last];
      assert forall c :: c in front ==> c in names;
      SlashedComponents(front);
      assert names[last] in names;
      SlashDivides(Slashed(front), names[last]);
      NameIsComponent(names[last]);
      assert names == front + [names[last]];
    }
  }

  function Parent(p: Path): Path {
    if p == [] then [] else p[..|p| - 1]
  }

  predicate IsAbsolute(target: string) {
    target != [] && target[0] == '/'
  }

  // ---- lookup as a process rooted in the image does it ----

  /** Where a lookup arrives, having followed `links` links; or the link that was one too many. */
  datatype Found = Found(path: Path, links: nat) | Loop(path: Path)

  /** Looking up components from a directory: a link's target is looked up in its place, then the rest from there. */
  function Lookup(fs: Links, from: Path, names: Path, links: nat): (r: Found)
    requires links <= MAX_SYMLINKS
    ensures r.Found? ==> links <= r.links <= MAX_SYMLINKS
    decreases MAX_SYMLINKS - links, |names|
  {
    if names == [] then Found(from, links)
    else
      var name, rest := names[0], names[1..];
      if name == HERE then Lookup(fs, from, rest, links)
      else if name == UP then Lookup(fs, Parent(from), rest, links)
      else
        var here := from + [name];
        if here !in fs then Lookup(fs, here, rest, links)
        else if links + 1 > MAX_SYMLINKS then Loop(here)
        else
          var target := Lookup(fs, if IsAbsolute(fs[here]) then [] else from, Components(fs[here]), links + 1);
          if target.Loop? then target else Lookup(fs, target.path, rest, target.links)
  }

  // ---- the worklist ----

  /** What the loop does with components pending. */
  function Work(fs: Links, done: Path, pending: Path, links: nat): Found
    requires links <= MAX_SYMLINKS
    decreases MAX_SYMLINKS - links, |pending|
  {
    if pending == [] then Found(done, links)
    else
      var name, rest := pending[0], pending[1..];
      if name == HERE then Work(fs, done, rest, links)
      else if name == UP then Work(fs, Parent(done), rest, links)
      else
        var here := done + [name];
        if here !in fs then Work(fs, here, rest, links)
        else if links + 1 > MAX_SYMLINKS then Loop(here)
        else Work(fs, if IsAbsolute(fs[here]) then [] else done, Components(fs[here]) + rest, links + 1)
  }

  /** The worklist does the recursive lookup of what it holds, one part after the other. */
  lemma {:induction false} WorkIsLookup(fs: Links, done: Path, a: Path, b: Path, links: nat)
    requires links <= MAX_SYMLINKS
    ensures Work(fs, done, a + b, links) ==
            var r := Lookup(fs, done, a, links); if r.Loop? then r else Work(fs, r.path, b, r.links)
    decreases MAX_SYMLINKS - links, |a|
  {
    if a == [] {
      assert a + b == b;
    } else {
      var name, rest := a[0], a[1..];
      assert (a + b)[0] == name && (a + b)[1..] == rest + b;
      var here := done + [name];
      if name == HERE {
        WorkIsLookup(fs, done, rest, b, links);
      } else if name == UP {
        WorkIsLookup(fs, Parent(done), rest, b, links);
      } else if here !in fs {
        WorkIsLookup(fs, here, rest, b, links);
      } else if links + 1 <= MAX_SYMLINKS {
        var from := if IsAbsolute(fs[here]) then [] else done;
        var target := Lookup(fs, from, Components(fs[here]), links + 1);
        WorkIsLookup(fs, from, Components(fs[here]), rest + b, links + 1);
        if target.Found? {
          WorkIsLookup(fs, target.path, rest, b, target.links);
        }
      }
    }
  }

  /** One part after the other. */
  lemma LookupInTurn(fs: Links, from: Path, a: Path, b: Path, links: nat)
    requires links <= MAX_SYMLINKS
    ensures Lookup(fs, from, a + b, links) ==
            var r := Lookup(fs, from, a, links); if r.Loop? then r else Lookup(fs, r.path, b, r.links)
  {
    WorkIsLookup(fs, from, a + b, [], links);
    WorkIsLookup(fs, from, a, b, links);
    assert a + b + [] == a + b;
    var r := Lookup(fs, from, a, links);
    if r.Found? {
      WorkIsLookup(fs, r.path, b, [], r.links);
      assert b + [] == b;
    }
  }

  // ---- what a lookup arrives at ----

  ghost predicate Proper(p: Path) {
    forall c {:trigger c in p} :: c in p ==> c != [] && c != HERE && c != UP && '/' !in c
  }

  /** No directory on the way, nor the path itself, is a link. */
  ghost predicate NoLinks(fs: Links, p: Path) {
    forall n {:trigger p[..n]} :: 0 < n <= |p| ==> p[..n] !in fs
  }

  ghost predicate Names(p: Path) {
    forall c {:trigger c in p} :: c in p ==> c != [] && '/' !in c
  }

  lemma NoLinksParent(fs: Links, p: Path)
    requires NoLinks(fs, p) && Proper(p)
    ensures NoLinks(fs, Parent(p)) && Proper(Parent(p))
  {
    if p != [] {
      forall n | 0 < n <= |p| - 1 ensures Parent(p)[..n] !in fs {
        assert Parent(p)[..n] == p[..n];
      }
      forall c | c in Parent(p) ensures c in p {
      }
    }
  }

  lemma NoLinksChild(fs: Links, p: Path, name: Name)
    requires NoLinks(fs, p) && Proper(p) && p + [name] !in fs && name != [] && name != HERE && name != UP
             && '/' !in name
    ensures NoLinks(fs, p + [name]) && Proper(p + [name])
  {
    var q := p + [name];
    forall n | 0 < n <= |q| ensures q[..n] !in fs {
      if n <= |p| {
        assert q[..n] == p[..n];
      } else {
        assert q[..n] == q;
      }
    }
  }

  /** Every lookup that stays within the limit arrives at components that are names, through no link; one that does not
      stops at a link. */
  lemma {:induction false} LookupIsProper(fs: Links, from: Path, names: Path, links: nat)
    requires links <= MAX_SYMLINKS && NoLinks(fs, from) && Proper(from) && Names(names)
    ensures var r := Lookup(fs, from, names, links);
            if r.Found? then NoLinks(fs, r.path) && Proper(r.path) else r.path in fs && Proper(r.path)
    decreases MAX_SYMLINKS - links, |names|
  {
    if names != [] {
      hide Components, NoLinks, Proper;
      var name, rest := names[0], names[1..];
      assert name in names;
      forall c | c in rest ensures c in names {
      }
      var here := from + [name];
      if name == HERE {
        LookupIsProper(fs, from, rest, links);
      } else if name == UP {
        NoLinksParent(fs, from);
        LookupIsProper(fs, Parent(from), rest, links);
      } else if here !in fs {
        NoLinksChild(fs, from, name);
        LookupIsProper(fs, here, rest, links);
      } else {
        ProperChild(from, name);
        RootIsProper(fs);
        if links + 1 <= MAX_SYMLINKS {
          var base := if IsAbsolute(fs[here]) then [] else from;
          LookupIsProper(fs, base, Components(fs[here]), links + 1);
          var target := Lookup(fs, base, Components(fs[here]), links + 1);
          if target.Found? {
            LookupIsProper(fs, target.path, rest, target.links);
          }
        }
      }
    }
  }

  lemma ProperChild(p: Path, name: Name)
    requires Proper(p) && name != [] && name != HERE && name != UP && '/' !in name
    ensures Proper(p + [name])
  {
  }

  lemma RootIsProper(fs: Links)
    ensures NoLinks(fs, []) && Proper([])
  {
  }

  // ---- what a path means ----

  lemma {:induction false} PlainLookup(fs: Links, names: Path, links: nat)
    requires links <= MAX_SYMLINKS && Proper(names) && NoLinks(fs, names)
    ensures Lookup(fs, [], names, links) == Found(names, links)
  {
    if names != [] {
      hide Lookup, NoLinks, Proper;
      var front, name := names[..|names| - 1], names[|names| - 1];
      assert names == front + [name];
      PlainLast(fs, names);
      NoLinksParent(fs, names);
      PlainLookup(fs, front, links);
      LookupInTurn(fs, [], front, [name], links);
      OneName(fs, front, name, links);
    }
  }

  lemma PlainLast(fs: Links, names: Path)
    requires Proper(names) && NoLinks(fs, names) && names != []
    ensures names !in fs && names[|names| - 1] != HERE && names[|names| - 1] != UP
  {
    assert names[|names| - 1] in names && names[..|names|] == names;
  }

  lemma OneName(fs: Links, from: Path, name: Name, links: nat)
    requires links <= MAX_SYMLINKS && name != HERE && name != UP && from + [name] !in fs
    ensures Lookup(fs, from, [name], links) == Found(from + [name], links)
  {
    assert [name][1..] == [];
    assert Lookup(fs, from + [name], [], links) == Found(from + [name], links);
  }

  /** A path through no link, and without dots, is itself. */
  lemma PlainPath(fs: Links, names: Path)
    requires Proper(names) && NoLinks(fs, names)
    ensures Lookup(fs, [], Components(Slashed(names)), 0) == Found(names, 0)
  {
    SlashedComponents(names);
    PlainLookup(fs, names, 0);
  }

  /** Forty links are followed; the next one ends the lookup there. */
  lemma LinkLimit(fs: Links, from: Path, name: Name, rest: Path, links: nat)
    requires links <= 40 && name != HERE && name != UP && from + [name] in fs
    ensures var here := from + [name];
            Lookup(fs, from, [name] + rest, links) ==
            if links == 40 then Loop(here)
            else Lookup(fs, if IsAbsolute(fs[here]) then [] else from, Components(fs[here]) + rest, links + 1)
  {
    hide Components;
    var here := from + [name];
    assert ([name] + rest)[1..] == rest;
    if links < 40 {
      LookupInTurn(fs, if IsAbsolute(fs[here]) then [] else from, Components(fs[here]), rest, links + 1);
    }
  }

  lemma LinkFollowed(fs: Links, dir: Path, name: Name, rest: Path)
    requires Proper(dir) && NoLinks(fs, dir) && Proper([name]) && dir + [name] in fs
    ensures var target := fs[dir + [name]];
            Lookup(fs, [], dir + [name] + rest, 0) ==
            Lookup(fs, if IsAbsolute(target) then [] else dir, Components(target) + rest, 1)
  {
    hide Components;
    var here := dir + [name];
    var base := if IsAbsolute(fs[here]) then [] else dir;
    assert dir + [name] + rest == dir + ([name] + rest) && name in [name];
    PlainLookup(fs, dir, 0);
    LookupInTurn(fs, [], dir, [name] + rest, 0);
    assert ([name] + rest)[1..] == rest;
    LookupInTurn(fs, base, Components(fs[here]), rest, 1);
  }

  /** A link with an absolute target stands for its target, */
  lemma AbsoluteLink(fs: Links, dir: Path, name: Name, rest: string)
    requires Proper(dir) && NoLinks(fs, dir) && Proper([name]) && dir + [name] in fs
    requires fs[dir + [name]] != [] && fs[dir + [name]][0] == '/'
    ensures Lookup(fs, [], Components(Slashed(dir + [name]) + "/" + rest), 0)
            == Lookup(fs, [], Components(fs[dir + [name]] + "/" + rest), 1)
  {
    hide Components, Lookup;
    ProperChild2(dir, name);
    SlashedComponents(dir + [name]);
    SlashDivides(Slashed(dir + [name]), rest);
    SlashDivides(fs[dir + [name]], rest);
    LinkFollowed(fs, dir, name, Components(rest));
  }

  /** and one with a relative target for its target in the same directory. */
  lemma RelativeLink(fs: Links, dir: Path, name: Name, rest: string)
    requires Proper(dir) && NoLinks(fs, dir) && Proper([name]) && dir + [name] in fs
    requires fs[dir + [name]] == [] || fs[dir + [name]][0] != '/'
    ensures Lookup(fs, [], Components(Slashed(dir + [name]) + "/" + rest), 0)
            == Lookup(fs, [], Components(Slashed(dir) + "/" + (fs[dir + [name]] + "/" + rest)), 1)
  {
    hide Components, Lookup;
    ProperChild2(dir, name);
    SlashedComponents(dir + [name]);
    SlashedComponents(dir);
    var target := fs[dir + [name]];
    SlashDivides(Slashed(dir + [name]), rest);
    SlashDivides(Slashed(dir), target + "/" + rest);
    SlashDivides(target, rest);
    LinkFollowed(fs, dir, name, Components(rest));
    PlainLookup(fs, dir, 1);
    LookupInTurn(fs, [], dir, Components(target) + Components(rest), 1);
  }

  lemma ProperChild2(dir: Path, name: Name)
    requires Proper(dir) && Proper([name])
    ensures Proper(dir + [name])
  {
    assert name in [name];
    ProperChild(dir, name);
  }

  /** `..` goes back over a name that is no link, and stays at the root. */
  lemma DotDot(fs: Links, dir: Path, rest: string)
    requires Proper(dir) && NoLinks(fs, dir)
    ensures Lookup(fs, [], Components(Slashed(dir) + "/../" + rest), 0)
            == Lookup(fs, if dir == [] then [] else dir[..|dir| - 1], Components(rest), 0)
  {
    SlashedComponents(dir);
    assert Slashed(dir) + "/../" + rest == Slashed(dir) + "/" + (".." + "/" + rest);
    SlashDivides(Slashed(dir), ".." + "/" + rest);
    SlashDivides("..", rest);
    NameIsComponent("..");
    hide Components;
    PlainLookup(fs, dir, 0);
    LookupInTurn(fs, [], dir, [".."] + Components(rest), 0);
    assert ([".."] + Components(rest))[1..] == Components(rest);
  }

  // ---- the loop ----

  function Reversed(p: Path): (r: Path)
    ensures |r| == |p|
  {
    if p == [] then [] else Reversed(p[1..]) + [p[0]]
  }

  lemma {:induction false} ReversedConcat(a: Path, b: Path)
    ensures Reversed(a + b) == Reversed(b) + Reversed(a)
  {
    if a == [] {
      assert a + b == b;
    } else {
      ReversedConcat(a[1..], b);
      assert (a + b)[0] == a[0] && (a + b)[1..] == a[1..] + b;
    }
  }

  lemma ReversedLast(p: Path)
    requires p != []
    ensures Reversed(p)[|p| - 1] == p[0] && Reversed(p)[..|p| - 1] == Reversed(p[1..])
  {
  }

  /** `host_path`, for any links the image may have: it ends, stays below the root, and arrives where the recursive
      lookup does. */
  method HostPath(fs: Links, guest: string) returns (done: Path)
    ensures done == Lookup(fs, [], Components(guest), 0).path && Proper(done)
    ensures Lookup(fs, [], Components(guest), 0).Found? ==> NoLinks(fs, done)
    ensures Lookup(fs, [], Components(guest), 0).Loop? ==> done in fs
    ensures forall names {:trigger Slashed(names)} ::
              Proper(names) && NoLinks(fs, names) && guest == Slashed(names) ==> done == names
  {
    hide Components, NoLinks, Proper, Slashed;
    forall names | Proper(names) && NoLinks(fs, names) && guest == Slashed(names)
      ensures Lookup(fs, [], Components(guest), 0).path == names
    {
      PlainPath(fs, names);
    }
    ghost var all := Lookup(fs, [], Components(guest), 0);
    RootIsProper(fs);
    LookupIsProper(fs, [], Components(guest), 0);
    WorkIsLookup(fs, [], Components(guest), [], 0);
    assert Components(guest) + [] == Components(guest);
    ghost var ahead := Components(guest);
    var pending := Reversed(Components(guest));
    var links := 0;
    done := [];
    while pending != []
      invariant links <= MAX_SYMLINKS && pending == Reversed(ahead)
      invariant Work(fs, done, ahead, links) == all
      decreases MAX_SYMLINKS - links, |pending|
    {
      ReversedLast(ahead);
      var name := pending[|pending| - 1];
      pending := pending[..|pending| - 1];
      ahead := ahead[1..];
      if name == HERE {
        continue;
      }
      if name == UP {
        done := Parent(done);
        continue;
      }
      done := done + [name];
      if done !in fs {
        continue;
      }
      links := links + 1;
      if links > MAX_SYMLINKS {
        return;
      }
      var target := fs[done];
      done := Parent(done);
      if IsAbsolute(target) {
        done := [];
      }
      ReversedConcat(Components(target), ahead);
      pending := pending + Reversed(Components(target));
      ahead := Components(target) + ahead;
    }
  }
}
