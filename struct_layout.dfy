/**
 * The layout arithmetic of a StructType, on values: members packed back to
 * back in declaration order, the name index, and the images that default- and
 * copy-construction leave in a MemoryImage.
 */
module StructLayout {
  import opened MemoryImages
  import opened TypeManagers

  /** One member variable: its type descriptor, its name and its byte offset. */
  datatype VarInfo = VarInfo(varType: Type, name: string, offset: nat)

  /** Bytes taken by `vs` laid out back to back. */
  function SumSizes(vs: seq<VarInfo>): nat
  {
    if vs == [] then 0 else SumSizes(vs[..|vs| - 1]) + vs[|vs| - 1].varType.size
  }

  /** Member i starts exactly where members 0..i-1 end. */
  ghost predicate Contiguous(vs: seq<VarInfo>)
  {
    forall i {:trigger vs[i].offset} :: 0 <= i < |vs| ==> vs[i].offset == SumSizes(vs[..i])
  }

  /** Member i sits under its own name at index i, and every key of the map names a member. */
  ghost predicate NamesIndexed(vs: seq<VarInfo>, nameMap: map<string, nat>)
  {
    && (forall i :: 0 <= i < |vs| ==> vs[i].name in nameMap && nameMap[vs[i].name] == i)
    && (forall n :: n in nameMap ==> nameMap[n] < |vs| && vs[nameMap[n]].name == n)
  }

  function MemberNames(vs: seq<VarInfo>): set<string>
  {
    set i | 0 <= i < |vs| :: vs[i].name
  }

  lemma SumSizesAppend(vs: seq<VarInfo>, v: VarInfo)
    ensures SumSizes(vs + [v]) == SumSizes(vs) + v.varType.size
  {
    assert (vs + [v])[..|vs|] == vs;
  }

  /** Prefix sums grow by each member's size, so they never decrease. */
  lemma {:induction false} SumSizesPrefix(vs: seq<VarInfo>, i: nat, j: nat)
    requires i < j <= |vs|
    ensures SumSizes(vs[..i + 1]) == SumSizes(vs[..i]) + vs[i].varType.size
    ensures SumSizes(vs[..i + 1]) <= SumSizes(vs[..j])
  {
    assert vs[..i + 1][..i] == vs[..i];
    if j > i + 1 {
      SumSizesPrefix(vs, i, j - 1);
      assert vs[..j][..j - 1] == vs[..j - 1];
    }
  }

  /** Every member's byte range lies inside [0, SumSizes(vs)). */
  lemma MemberWithin(vs: seq<VarInfo>, i: nat)
    requires Contiguous(vs) && i < |vs|
    ensures vs[i].offset + vs[i].varType.size <= SumSizes(vs)
  {
    SumSizesPrefix(vs, i, |vs|);
    assert vs[..|vs|] == vs;
  }

  /** Member ranges are disjoint and in declaration order. */
  lemma MembersDisjoint(vs: seq<VarInfo>, i: nat, j: nat)
    requires Contiguous(vs) && i < j < |vs|
    ensures vs[i].offset + vs[i].varType.size <= vs[j].offset
  {
    SumSizesPrefix(vs, i, j);
  }

  /** Appending a member at offset SumSizes(vs) keeps the layout contiguous and adds its size. */
  lemma AppendKeepsContiguous(vs: seq<VarInfo>, v: VarInfo)
    requires Contiguous(vs) && v.offset == SumSizes(vs)
    ensures Contiguous(vs + [v])
    ensures SumSizes(vs + [v]) == SumSizes(vs) + v.varType.size
  {
    var vs' := vs + [v];
    SumSizesAppend(vs, v);
    forall i | 0 <= i < |vs'|
      ensures vs'[i].offset == SumSizes(vs'[..i])
    {
      if i < |vs| {
        assert vs'[..i] == vs[..i];
      } else {
        assert vs'[..i] == vs;
      }
    }
  }

  /** Registering a fresh name at index |vs| keeps the name index exact. */
  lemma AppendKeepsNamesIndexed(vs: seq<VarInfo>, nameMap: map<string, nat>, v: VarInfo)
    requires NamesIndexed(vs, nameMap) && v.name !in nameMap
    ensures NamesIndexed(vs + [v], nameMap[v.name := |vs|])
  {
  }

  /** The name index holds one key per member: its keys are the member names, and they are as many as the members. */
  lemma {:induction false} NamesIndexedCount(vs: seq<VarInfo>, nameMap: map<string, nat>)
    requires NamesIndexed(vs, nameMap)
    ensures nameMap.Keys == MemberNames(vs)
    ensures |nameMap| == |vs|
  {
    DistinctNamesCount(vs);
  }

  lemma {:induction false} DistinctNamesCount(vs: seq<VarInfo>)
    requires forall i, j :: 0 <= i < j < |vs| ==> vs[i].name != vs[j].name
    ensures |MemberNames(vs)| == |vs|
  {
    if vs != [] {
      var pre := vs[..|vs| - 1];
      DistinctNamesCount(pre);
      assert MemberNames(vs) == MemberNames(pre) + {vs[|vs| - 1].name};
      assert vs[|vs| - 1].name !in MemberNames(pre);
    }
  }

  lemma SliceOfPrefix(a: seq<Byte>, b: seq<Byte>, o: nat, n: nat)
    requires o + n <= |a|
    ensures (a + b)[o..o + n] == a[o..o + n]
  {
  }

  /** The pieces laid end to end, in order. */
  function Concat(ps: seq<seq<Byte>>): seq<Byte>
  {
    if ps == [] then [] else Concat(ps[..|ps| - 1]) + ps[|ps| - 1]
  }

  /** There is one piece per member, exactly as long as the member's type. */
  ghost predicate Fits(vs: seq<VarInfo>, ps: seq<seq<Byte>>)
  {
    |ps| == |vs| && forall i :: 0 <= i < |ps| ==> |ps[i]| == vs[i].varType.size
  }

  lemma FitsPrefix(vs: seq<VarInfo>, ps: seq<seq<Byte>>, k: nat)
    requires Fits(vs, ps) && k <= |vs|
    ensures Fits(vs[..k], ps[..k])
  {
    forall i | 0 <= i < k
      ensures |ps[..k][i]| == vs[..k][i].varType.size
    {
      assert ps[..k][i] == ps[i] && vs[..k][i] == vs[i];
    }
  }

  lemma {:induction false} ConcatLength(vs: seq<VarInfo>, ps: seq<seq<Byte>>)
    requires Fits(vs, ps)
    ensures |Concat(ps)| == SumSizes(vs)
  {
    if ps != [] {
      var k := |ps| - 1;
      FitsPrefix(vs, ps, k);
      ConcatLength(vs[..k], ps[..k]);
    }
  }

  /** Piece i occupies bytes [SumSizes(vs[..i]), SumSizes(vs[..i + 1])) of the concatenation. */
  lemma {:induction false} ConcatField(vs: seq<VarInfo>, ps: seq<seq<Byte>>, i: nat)
    requires Fits(vs, ps) && i < |vs|
    ensures SumSizes(vs[..i]) + vs[i].varType.size <= |Concat(ps)|
    ensures Concat(ps)[SumSizes(vs[..i])..SumSizes(vs[..i]) + vs[i].varType.size] == ps[i]
  {
    var k := |ps| - 1;
    var pre := Concat(ps[..k]);
    assert Concat(ps) == pre + ps[k];
    FitsPrefix(vs, ps, k);
    ConcatLength(vs[..k], ps[..k]);
    var o, n := SumSizes(vs[..i]), vs[i].varType.size;
    if i < k {
      ConcatField(vs[..k], ps[..k], i);
      assert vs[..k][..i] == vs[..i];
      assert ps[..k][i] == ps[i];
      SumSizesPrefix(vs, i, k);
      SliceOfPrefix(pre, ps[k], o, n);
    } else {
      assert vs[..i] == vs[..k];
      assert (pre + ps[k])[o..o + n] == ps[k];
    }
  }

  /** Piece i is the window of `from` where member i would sit if packed. */
  ghost predicate Slices(vs: seq<VarInfo>, ps: seq<seq<Byte>>, from: seq<Byte>)
  {
    forall i :: 0 <= i < |vs| && i < |ps| ==> ps[i] == Window(from, SumSizes(vs[..i]), vs[i].varType.size)
  }

  lemma SlicesPrefix(vs: seq<VarInfo>, ps: seq<seq<Byte>>, from: seq<Byte>, k: nat)
    requires Slices(vs, ps, from) && k <= |vs| && k <= |ps|
    ensures Slices(vs[..k], ps[..k], from)
  {
    forall i | 0 <= i < k
      ensures ps[..k][i] == Window(from, SumSizes(vs[..k][..i]), vs[..k][i].varType.size)
    {
      assert ps[..k][i] == ps[i] && vs[..k][i] == vs[i] && vs[..k][..i] == vs[..i];
    }
  }

  /** Pieces that are the windows of `from` at the packed offsets rebuild the start of `from`. */
  lemma {:induction false} ConcatOfSlices(vs: seq<VarInfo>, ps: seq<seq<Byte>>, from: seq<Byte>)
    requires Fits(vs, ps) && Slices(vs, ps, from) && SumSizes(vs) <= |from|
    ensures Concat(ps) == from[..SumSizes(vs)]
  {
    if ps != [] {
      var k := |ps| - 1;
      FitsPrefix(vs, ps, k);
      SlicesPrefix(vs, ps, from, k);
      ConcatOfSlices(vs[..k], ps[..k], from);
      var o, n := SumSizes(vs[..k]), vs[k].varType.size;
      assert ps[k] == Window(from, o, n);
      PrefixExtends(from, Concat(ps[..k]), ps[k], o, n);
    }
  }

  lemma PrefixExtends(from: seq<Byte>, a: seq<Byte>, p: seq<Byte>, o: nat, n: nat)
    requires o + n <= |from| && a == from[..o] && p == from[o..o + n]
    ensures a + p == from[..o + n]
  {
    assert from[..o + n] == from[..o] + from[o..o + n];
  }

  /** The n bytes of `mem` from offset o (zeros where `mem` is too short; never read that way here). */
  function Window(mem: seq<Byte>, o: nat, n: nat): (r: seq<Byte>)
    ensures |r| == n
    ensures o + n <= |mem| ==> r == mem[o..o + n]
  {
    if o + n <= |mem| then mem[o..o + n] else Zeros(n)
  }

  function Zeros(n: nat): (r: seq<Byte>)
    ensures |r| == n
  {
    if n == 0 then [] else Zeros(n - 1) + [0]
  }

  /** A member constructor writes exactly as many bytes as its type occupies. */
  ghost predicate InitSized(init: Type -> seq<Byte>)
  {
    forall t :: |init(t)| == t.size
  }

  /** A member copy constructor turns the bytes of one value into the bytes of another of the same size. */
  ghost predicate CopySized(copy: (Type, seq<Byte>) -> seq<Byte>)
  {
    forall t: Type, b: seq<Byte> :: |b| == t.size ==> |copy(t, b)| == t.size
  }

  /**
   * How each member is built when the whole struct is constructed: by its
   * type's default constructor, or by copying the same member of the image
   * `from`.
   */
  datatype Construction =
    | ByDefault(init: Type -> seq<Byte>)
    | ByCopy(from: seq<Byte>, copy: (Type, seq<Byte>) -> seq<Byte>)

  ghost predicate Sized(c: Construction)
  {
    match c
    case ByDefault(init) => InitSized(init)
    case ByCopy(_, copy) => CopySized(copy)
  }

  /** The bytes that constructing member v writes at its offset. */
  function Chunk(c: Construction, v: VarInfo): seq<Byte>
  {
    match c
    case ByDefault(init) => init(v.varType)
    case ByCopy(from, copy) => copy(v.varType, Window(from, v.offset, v.varType.size))
  }

  lemma ChunkSized(c: Construction, v: VarInfo)
    requires Sized(c)
    ensures |Chunk(c, v)| == v.varType.size
  {
    if c.ByCopy? {
      assert |Window(c.from, v.offset, v.varType.size)| == v.varType.size;
    }
  }

  lemma CopyChunkIs(from: seq<Byte>, copy: (Type, seq<Byte>) -> seq<Byte>, v: VarInfo)
    requires v.offset + v.varType.size <= |from|
    ensures Chunk(ByCopy(from, copy), v) == copy(v.varType, from[v.offset..v.offset + v.varType.size])
  {
    assert Window(from, v.offset, v.varType.size) == from[v.offset..v.offset + v.varType.size];
  }

  /** What constructing each member writes, in declaration order. */
  ghost function Pieces(vs: seq<VarInfo>, c: Construction): (ps: seq<seq<Byte>>)
    ensures |ps| == |vs|
    ensures forall i :: 0 <= i < |vs| ==> ps[i] == Chunk(c, vs[i])
  {
    if vs == [] then [] else Pieces(vs[..|vs| - 1], c) + [Chunk(c, vs[|vs| - 1])]
  }

  lemma PiecesFit(vs: seq<VarInfo>, c: Construction)
    requires Sized(c)
    ensures Fits(vs, Pieces(vs, c))
  {
    forall i | 0 <= i < |vs|
      ensures |Pieces(vs, c)[i]| == vs[i].varType.size
    {
      ChunkSized(c, vs[i]);
    }
  }

  /** The image left by constructing every member in declaration order. */
  ghost function Image(vs: seq<VarInfo>, c: Construction): (r: seq<Byte>)
    requires Sized(c)
    ensures |r| == SumSizes(vs)
  {
    if vs == [] then []
    else
      ChunkSized(c, vs[|vs| - 1]);
      Image(vs[..|vs| - 1], c) + Chunk(c, vs[|vs| - 1])
  }

  /** The image is the concatenation of what each member's construction writes. */
  lemma {:induction false} ImageIsConcat(vs: seq<VarInfo>, c: Construction)
    requires Sized(c)
    ensures Image(vs, c) == Concat(Pieces(vs, c))
  {
    if vs != [] {
      var k := |vs| - 1;
      var ps := Pieces(vs, c);
      ImageIsConcat(vs[..k], c);
      assert ps[..k] == Pieces(vs[..k], c);
    }
  }

  /** The image DefaultConstruct leaves. */
  ghost function DefaultImage(vs: seq<VarInfo>, init: Type -> seq<Byte>): (r: seq<Byte>)
    requires InitSized(init)
  {
    Image(vs, ByDefault(init))
  }

  /** The image CopyConstruct leaves when copying from `from`. */
  ghost function CopyImage(vs: seq<VarInfo>, from: seq<Byte>, copy: (Type, seq<Byte>) -> seq<Byte>): (r: seq<Byte>)
    requires CopySized(copy)
  {
    Image(vs, ByCopy(from, copy))
  }

  /** Constructing one more member appends what it writes. */
  lemma ImageStep(vs: seq<VarInfo>, c: Construction, i: nat)
    requires Sized(c) && i < |vs|
    ensures SumSizes(vs[..i + 1]) == SumSizes(vs[..i]) + vs[i].varType.size
    ensures Image(vs[..i + 1], c) == Image(vs[..i], c) + Chunk(c, vs[i])
  {
    assert vs[..i + 1][..i] == vs[..i];
  }

  /** Member i's piece sits in the image right after the pieces of members 0..i-1. */
  lemma ImageAt(vs: seq<VarInfo>, c: Construction, i: nat)
    requires Sized(c) && i < |vs|
    ensures SumSizes(vs[..i]) + vs[i].varType.size <= |Image(vs, c)|
    ensures Image(vs, c)[SumSizes(vs[..i])..SumSizes(vs[..i]) + vs[i].varType.size] == Chunk(c, vs[i])
  {
    PiecesFit(vs, c);
    ImageIsConcat(vs, c);
    ConcatField(vs, Pieces(vs, c), i);
  }

  /** In a contiguous layout, member i's range of the image holds exactly what constructing member i wrote. */
  lemma ImageField(vs: seq<VarInfo>, c: Construction, i: nat)
    requires Sized(c) && Contiguous(vs) && i < |vs|
    ensures vs[i].offset + vs[i].varType.size <= |Image(vs, c)|
    ensures Image(vs, c)[vs[i].offset..vs[i].offset + vs[i].varType.size] == Chunk(c, vs[i])
  {
    ImageAt(vs, c, i);
    assert vs[i].offset == SumSizes(vs[..i]);
  }

  /** Reading member i of a default-constructed image yields the bytes its type's default constructor writes. */
  lemma DefaultImageField(vs: seq<VarInfo>, init: Type -> seq<Byte>, i: nat)
    requires InitSized(init) && Contiguous(vs) && i < |vs|
    ensures |DefaultImage(vs, init)| == SumSizes(vs)
    ensures vs[i].offset + vs[i].varType.size <= SumSizes(vs)
    ensures DefaultImage(vs, init)[vs[i].offset..vs[i].offset + vs[i].varType.size] == init(vs[i].varType)
  {
    ImageField(vs, ByDefault(init), i);
  }

  /** Reading member i of a copy-constructed image yields the copy of the same member of the source image. */
  lemma CopyImageField(vs: seq<VarInfo>, from: seq<Byte>, copy: (Type, seq<Byte>) -> seq<Byte>, i: nat)
    requires CopySized(copy) && Contiguous(vs) && SumSizes(vs) <= |from| && i < |vs|
    ensures |CopyImage(vs, from, copy)| == SumSizes(vs)
    ensures vs[i].offset + vs[i].varType.size <= SumSizes(vs)
    ensures CopyImage(vs, from, copy)[vs[i].offset..vs[i].offset + vs[i].varType.size]
         == copy(vs[i].varType, from[vs[i].offset..vs[i].offset + vs[i].varType.size])
  {
    var c := ByCopy(from, copy);
    var o, n := vs[i].offset, vs[i].varType.size;
    MemberWithin(vs, i);
    ImageField(vs, c, i);
    CopyChunkIs(from, copy, vs[i]);
    var img := Image(vs, c);
    assert CopyImage(vs, from, copy) == img;
    assert img[o..o + n] == Chunk(c, vs[i]);
  }

  /** With byte-for-byte member copies (trivially copyable types), the copy is the source's first SumSizes(vs) bytes. */
  lemma CopyImageIdentity(vs: seq<VarInfo>, from: seq<Byte>, copy: (Type, seq<Byte>) -> seq<Byte>)
    requires CopySized(copy) && Contiguous(vs) && SumSizes(vs) <= |from|
    requires forall t: Type, b: seq<Byte> :: |b| == t.size ==> copy(t, b) == b
    ensures CopyImage(vs, from, copy) == from[..SumSizes(vs)]
  {
    var c := ByCopy(from, copy);
    var ps := Pieces(vs, c);
    PiecesFit(vs, c);
    ImageIsConcat(vs, c);
    forall i | 0 <= i < |vs|
      ensures ps[i] == Window(from, SumSizes(vs[..i]), vs[i].varType.size)
    {
      var w := Window(from, vs[i].offset, vs[i].varType.size);
      assert ps[i] == copy(vs[i].varType, w);
    }
    ConcatOfSlices(vs, ps, from);
  }
}
