/** Boxes inside boxes: finding one along a path of types, and writing over its body in place. */
module NestedBoxes {
  import opened Bytes
  import opened Boxes

  datatype Child = Child(boxType: fourcc, body: bytes)

  function Written(c: Child): (s: bytes)
    ensures |s| == HeaderLength(|c.body|) + |c.body|
  {
    WriteBox(c.boxType, c.body)
  }

  /** Boxes one after another. */
  function BoxesOf(children: seq<Child>): bytes
    decreases |children|
  {
    if children == [] then [] else BoxesOf(children[..|children| - 1]) + Written(children[|children| - 1])
  }

  lemma {:induction false} BoxesAppend(a: seq<Child>, b: seq<Child>)
    ensures BoxesOf(a + b) == BoxesOf(a) + BoxesOf(b)
    decreases |b|
  {
    hide Written;
    if b == [] {
      assert a + b == a;
    } else {
      var n := |b| - 1;
      assert (a + b)[..|a| + n] == a + b[..n];
      BoxesAppend(a, b[..n]);
      Assoc(BoxesOf(a), BoxesOf(b[..n]), Written(b[n]));
    }
  }

  /** The boxes before, at and after the one numbered `i`. */
  lemma BoxesAround(children: seq<Child>, i: nat)
    requires i < |children|
    ensures BoxesOf(children) == BoxesOf(children[..i]) + (Written(children[i]) + BoxesOf(children[i + 1..]))
  {
    hide BoxesOf, Written;
    var c := children[i];
    assert children == children[..i] + ([c] + children[i + 1..]);
    BoxesAppend(children[..i], [c] + children[i + 1..]);
    BoxesAppend([c], children[i + 1..]);
    OneBox(c);
  }

  lemma OneBox(c: Child)
    ensures BoxesOf([c]) == Written(c)
  {
    hide Written;
    assert [c][..0] == [] && [] + Written(c) == Written(c);
  }

  // ---- Finding ----

  /** The first box of a type from `pos` on, unless one before it is malformed. */
  function FindChild(data: bytes, pos: nat, target: fourcc): (r: Option<Box>)
    ensures r.Some? ==> 8 <= r.value.start <= r.value.end <= |data|
    decreases |data| - pos
  {
    if pos >= |data| then None
    else
      match NextBox(data, pos)
      case Err(_) => None
      case Ok(b) => if b.boxType == target then Some(b) else FindChild(data, b.end, target)
  }

  /** Where the body of the box at the end of a path begins. */
  function FindNested(data: bytes, path: seq<fourcc>): Option<nat>
    decreases |path|
  {
    if path == [] then None
    else
      match FindChild(data, 0, path[0])
      case None => None
      case Some(b) =>
        if |path| == 1 then Some(b.start)
        else
          match FindNested(data[b.start..b.end], path[1..])
          case None => None
          case Some(p) => Some(b.start + p)
  }

  /** The search of one level of boxes. */
  method FindLevel(data: bytes, target: fourcc) returns (found: Option<Box>)
    ensures found == FindChild(data, 0, target)
  {
    hide NextBox;
    var pos := 0;
    while pos < |data|
      invariant FindChild(data, pos, target) == FindChild(data, 0, target)
      decreases |data| - pos
    {
      var next := NextBox(data, pos);
      if next.Err? {
        return None;
      }
      if next.value.boxType == target {
        return Some(next.value);
      }
      pos := next.value.end;
    }
    return None;
  }

  method FindNestedBoxOffset(data: bytes, path: seq<fourcc>) returns (r: Option<nat>)
    ensures r == FindNested(data, path)
  {
    hide FindChild;
    var level, offset := data, 0;
    assert path[0..] == path;
    for i := 0 to |path|
      invariant FindNested(data, path) ==
                match FindNested(level, path[i..]) { case None => None case Some(p) => Some(offset + p) }
    {
      assert path[i..][0] == path[i] && path[i..][1..] == path[i + 1..];
      var found := FindLevel(level, path[i]);
      if found.None? {
        return None;
      }
      var b := found.value;
      if i == |path| - 1 {
        return Some(offset + b.start);
      }
      level := level[b.start..b.end];
      offset := offset + b.start;
    }
    return None;
  }

  /** Boxes that a reader takes, with 8- or 16-byte headers. */
  predicate Takeable(children: seq<Child>)
  {
    forall k | 0 <= k < |children| :: HeaderLength(|children[k].body|) + |children[k].body| <= MAX_BOX_SIZE
  }

  predicate FirstAt(children: seq<Child>, i: nat, target: fourcc)
  {
    i < |children| && children[i].boxType == target && forall j | 0 <= j < i :: children[j].boxType != target
  }

  lemma TakeableChild(children: seq<Child>, i: nat)
    requires Takeable(children) && i < |children|
    ensures HeaderLength(|children[i].body|) + |children[i].body| == |Written(children[i])| <= MAX_BOX_SIZE
  {
    hide BoxesOf;
  }

  lemma TakeableInside(children: seq<Child>)
    requires |BoxesOf(children)| <= MAX_BOX_SIZE
    ensures Takeable(children)
  {
    hide BoxesOf, WriteBox, HeaderLength;
    forall k | 0 <= k < |children| ensures HeaderLength(|children[k].body|) + |children[k].body| <= MAX_BOX_SIZE {
      BoxesAround(children, k);
    }
  }

  /** Where child `i`'s body begins. */
  function BodyAt(children: seq<Child>, i: nat): nat
    requires i < |children|
  {
    |BoxesOf(children[..i])| + HeaderLength(|children[i].body|)
  }

  lemma {:induction false} FoundFrom(children: seq<Child>, i: nat, k: nat, rest: bytes)
    requires i < |children| && Takeable(children) && k <= i && FirstAt(children, i, children[i].boxType)
    ensures var data := BoxesOf(children) + rest;
            FindChild(data, |BoxesOf(children[..k])|, children[i].boxType) ==
            Some(Box(children[i].boxType, BodyAt(children, i), BodyAt(children, i) + |children[i].body|))
    decreases i - k
  {
    hide BoxesOf, WriteBox, NextBox;
    var data := BoxesOf(children) + rest;
    TakeableChild(children, k);
    BoxesAround(children, k);
    var before, box, after := BoxesOf(children[..k]), Written(children[k]), BoxesOf(children[k + 1..]);
    Regroup(before, box, after, rest);
    NextReads(before, children[k].boxType, children[k].body, after + rest);
    if k < i {
      assert children[..k + 1] == children[..k] + [children[k]];
      BoxesAppend(children[..k], [children[k]]);
      OneBox(children[k]);
      FoundFrom(children, i, k + 1, rest);
    }
  }

  lemma Regroup(a: bytes, b: bytes, c: bytes, d: bytes)
    ensures (a + (b + c)) + d == a + (b + (c + d))
  {
  }

  /** The first child of a type is found, with its body. */
  lemma ChildFound(children: seq<Child>, i: nat, target: fourcc, rest: bytes)
    requires Takeable(children) && FirstAt(children, i, target)
    ensures var data, at := BoxesOf(children) + rest, BodyAt(children, i);
            && FindChild(data, 0, target) == Some(Box(target, at, at + |children[i].body|))
            && at + |children[i].body| <= |data| && data[at..at + |children[i].body|] == children[i].body
  {
    hide BoxesOf, FindChild, NextBox;
    FoundFrom(children, i, 0, rest);
    NoBoxes();
    assert children[..0] == [];
    TakeableChild(children, i);
    BoxesAround(children, i);
    var before, box, after := BoxesOf(children[..i]), Written(children[i]), BoxesOf(children[i + 1..]);
    Regroup(before, box, after, rest);
    BodyPlace(before, box, after + rest, HeaderLength(|children[i].body|));
  }

  lemma NoBoxes()
    ensures BoxesOf([]) == []
  {
  }

  /** A type that no child has is not found. */
  lemma {:induction false} NotFoundFrom(children: seq<Child>, k: nat, target: fourcc)
    requires Takeable(children) && k <= |children| && forall j | k <= j < |children| :: children[j].boxType != target
    ensures FindChild(BoxesOf(children), |BoxesOf(children[..k])|, target) == None
    decreases |children| - k
  {
    hide BoxesOf, WriteBox, NextBox;
    if k == |children| {
      assert children[..k] == children;
    } else {
      TakeableChild(children, k);
      BoxesAround(children, k);
      NextReads(BoxesOf(children[..k]), children[k].boxType, children[k].body, BoxesOf(children[k + 1..]));
      assert children[..k + 1] == children[..k] + [children[k]];
      BoxesAppend(children[..k], [children[k]]);
      OneBox(children[k]);
      NotFoundFrom(children, k + 1, target);
    }
  }

  // ---- A box's body at the end of a path ----

  /** The body found at the end of a path. */
  ghost predicate Holds(data: bytes, path: seq<fourcc>, body: bytes)
  {
    var p := FindNested(data, path);
    p.Some? && p.value + |body| <= |data| && data[p.value..p.value + |body|] == body
  }

  lemma HoldsHere(children: seq<Child>, i: nat, target: fourcc)
    requires Takeable(children) && FirstAt(children, i, target)
    ensures Holds(BoxesOf(children), [target], children[i].body)
  {
    hide BoxesOf, FindChild;
    ChildFound(children, i, target, []);
    assert BoxesOf(children) + [] == BoxesOf(children);
  }

  lemma HoldsBelow(children: seq<Child>, i: nat, target: fourcc, path: seq<fourcc>, body: bytes, rest: bytes)
    requires Takeable(children) && FirstAt(children, i, target) && path != [] && Holds(children[i].body, path, body)
    ensures Holds(BoxesOf(children) + rest, [target] + path, body)
  {
    hide BoxesOf, FindChild, FindNested;
    ChildFound(children, i, target, rest);
    var data, at, inner := BoxesOf(children) + rest, BodyAt(children, i), children[i].body;
    var p := FindNested(inner, path).value;
    Deeper(data, target, path);
    SliceOfSlice(data, at, at + |inner|, p, p + |body|);
  }

  lemma Deeper(data: bytes, target: fourcc, path: seq<fourcc>)
    requires path != [] && FindChild(data, 0, target).Some?
    ensures var b := FindChild(data, 0, target).value;
            FindNested(data, [target] + path) ==
            match FindNested(data[b.start..b.end], path) { case None => None case Some(p) => Some(b.start + p) }
  {
    hide FindChild;
    assert ([target] + path)[1..] == path;
  }

  lemma NoneBelow(children: seq<Child>, i: nat, target: fourcc, path: seq<fourcc>, rest: bytes)
    requires Takeable(children) && FirstAt(children, i, target) && path != []
             && FindNested(children[i].body, path) == None
    ensures FindNested(BoxesOf(children) + rest, [target] + path) == None
  {
    hide BoxesOf, FindChild, FindNested;
    ChildFound(children, i, target, rest);
    Deeper(BoxesOf(children) + rest, target, path);
  }

  // ---- Writing over a body ----

  function Overwrite(s: bytes, pos: nat, field: bytes): (r: bytes)
    requires pos + |field| <= |s|
    ensures |r| == |s|
  {
    s[..pos] + field + s[pos + |field|..]
  }

  lemma OverwriteInside(a: bytes, s: bytes, b: bytes, pos: nat, field: bytes)
    requires pos + |field| <= |s|
    ensures Overwrite(a + (s + b), |a| + pos, field) == a + (Overwrite(s, pos, field) + b)
  {
  }

  lemma OverwriteBox(c: Child, pos: nat, field: bytes)
    requires pos + |field| <= |c.body|
    ensures Overwrite(Written(c), HeaderLength(|c.body|) + pos, field) ==
            Written(Child(c.boxType, Overwrite(c.body, pos, field)))
  {
    hide BE32, BE64;
    var h := if |c.body| + 8 <= U32_MAX then BE32(|c.body| + 8) + BE32(c.boxType)
             else BE32(1) + BE32(c.boxType) + BE64((|c.body| + 16) % (U64_MAX + 1));
    assert Written(c) == h + c.body;
    assert Overwrite(h + c.body, |h| + pos, field) == h + Overwrite(c.body, pos, field);
  }

  /** Writing over a part of one child's body changes that child and no other byte. */
  lemma OverwriteChild(children: seq<Child>, i: nat, pos: nat, field: bytes)
    requires Takeable(children) && i < |children| && pos + |field| <= |children[i].body|
    ensures BodyAt(children, i) + pos + |field| <= |BoxesOf(children)|
    ensures Overwrite(BoxesOf(children), BodyAt(children, i) + pos, field) ==
            BoxesOf(children[i := Child(children[i].boxType, Overwrite(children[i].body, pos, field))])
  {
    hide BoxesOf, Written, Overwrite;
    var c := children[i];
    var now := children[i := Child(c.boxType, Overwrite(c.body, pos, field))];
    TakeableChild(children, i);
    BoxesAround(children, i);
    BoxesAround(now, i);
    assert now[..i] == children[..i] && now[i + 1..] == children[i + 1..];
    OverwriteInside(BoxesOf(children[..i]), Written(c), BoxesOf(children[i + 1..]), HeaderLength(|c.body|) + pos,
                    field);
    OverwriteBox(c, pos, field);
  }

  /** Writing a field `skip` bytes into the body at the end of a path gives `result`. */
  ghost predicate Patches(data: bytes, path: seq<fourcc>, skip: nat, field: bytes, result: bytes)
  {
    var p := FindNested(data, path);
    p.Some? && p.value + skip + |field| <= |data| && Overwrite(data, p.value + skip, field) == result
  }

  lemma PatchesHere(children: seq<Child>, i: nat, target: fourcc, skip: nat, field: bytes)
    requires Takeable(children) && FirstAt(children, i, target) && skip + |field| <= |children[i].body|
    ensures Patches(BoxesOf(children), [target], skip, field,
                    BoxesOf(children[i := Child(target, Overwrite(children[i].body, skip, field))]))
  {
    hide BoxesOf, FindChild, Overwrite;
    ChildFound(children, i, target, []);
    assert BoxesOf(children) + [] == BoxesOf(children);
    OverwriteChild(children, i, skip, field);
  }

  lemma PatchesBelow(children: seq<Child>, i: nat, target: fourcc, path: seq<fourcc>, skip: nat, field: bytes,
                     inner: bytes)
    requires Takeable(children) && FirstAt(children, i, target) && path != []
    requires Patches(children[i].body, path, skip, field, inner)
    ensures Patches(BoxesOf(children), [target] + path, skip, field, BoxesOf(children[i := Child(target, inner)]))
  {
    hide BoxesOf, FindChild, FindNested, Overwrite;
    ChildFound(children, i, target, []);
    assert BoxesOf(children) + [] == BoxesOf(children);
    Deeper(BoxesOf(children), target, path);
    OverwriteChild(children, i, FindNested(children[i].body, path).value + skip, field);
  }
}
