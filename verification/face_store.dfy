/** The face store: a process-wide `Map` from face id to face record, kept
    in insertion order, written out as the list of its values after every
    change and read back from that list at start-up. */
module FaceStore {
  import opened Wrappers
  import opened OrderedMaps

  /** A stored face. `name` is `None` once an update has set it to
      `undefined`; `createdAt` is kept as its ISO-8601 text. */
  datatype Face = Face(id: string, name: Option<string>, imageUrl: string, descriptor: seq<real>, createdAt: string)

  /** A key of a partial update: left out, or present with a value. */
  datatype Slot<T> = Absent | Present(value: T) {
    /** What the field becomes under `{ ...old, ...updates }`. */
    function Over(current: T): T {
      match this
      case Absent => current
      case Present(v) => v
    }
  }

  /** `Partial<FaceData>`: the keys an update object carries. A present
      `name` key may hold `undefined`. */
  datatype FacePatch = FacePatch(id: Slot<string>, name: Slot<Option<string>>, imageUrl: Slot<string>,
                                 descriptor: Slot<seq<real>>, createdAt: Slot<string>)

  type Faces = OrderedMap<string, Face>

  /** The update object `{ name }` the rename route passes: the key is
      always there, holding `undefined` when the request had no name. */
  function NamePatch(name: Option<string>): FacePatch {
    FacePatch(Absent, Present(name), Absent, Absent, Absent)
  }

  const NoChange: FacePatch := FacePatch(Absent, Absent, Absent, Absent, Absent)

  /** `{ ...face, ...updates }`: every key the update carries replaces the
      face's field, every other field is kept. */
  function Apply(face: Face, patch: FacePatch): (r: Face)
    ensures patch.id.Present? ==> r.id == patch.id.value
    ensures patch.id.Absent? ==> r.id == face.id
    ensures patch.name.Present? ==> r.name == patch.name.value
    ensures patch.name.Absent? ==> r.name == face.name
    ensures patch.imageUrl.Present? ==> r.imageUrl == patch.imageUrl.value
    ensures patch.imageUrl.Absent? ==> r.imageUrl == face.imageUrl
    ensures patch.descriptor.Present? ==> r.descriptor == patch.descriptor.value
    ensures patch.descriptor.Absent? ==> r.descriptor == face.descriptor
    ensures patch.createdAt.Present? ==> r.createdAt == patch.createdAt.value
    ensures patch.createdAt.Absent? ==> r.createdAt == face.createdAt
  {
    Face(patch.id.Over(face.id), patch.name.Over(face.name), patch.imageUrl.Over(face.imageUrl),
         patch.descriptor.Over(face.descriptor), patch.createdAt.Over(face.createdAt))
  }

  /** The patch whose keys are those of `second` and, where it has none,
      those of `first`. */
  function Merge(first: FacePatch, second: FacePatch): FacePatch {
    FacePatch(if second.id.Present? then second.id else first.id,
              if second.name.Present? then second.name else first.name,
              if second.imageUrl.Present? then second.imageUrl else first.imageUrl,
              if second.descriptor.Present? then second.descriptor else first.descriptor,
              if second.createdAt.Present? then second.createdAt else first.createdAt)
  }

  /** An update with no keys leaves the face as it is. */
  lemma ApplyNoChange(face: Face)
    ensures Apply(face, NoChange) == face
  {
  }

  /** Two successive updates are one update by their merged keys. */
  lemma ApplyTwice(face: Face, first: FacePatch, second: FacePatch)
    ensures Apply(Apply(face, first), second) == Apply(face, Merge(first, second))
  {
  }

  /** A rename touches the name only. */
  lemma RenameOnlyName(face: Face, name: Option<string>)
    ensures Apply(face, NamePatch(name)) == face.(name := name)
  {
  }

  /** Every face is stored under its own id. */
  ghost predicate Keyed(s: Faces) {
    s.Valid() && forall id :: id in s.items ==> s.items[id].id == id
  }

  /** `addFace`: store the face under its id (replacing, in place, a face
      with that id) and return it. */
  function AddFace(s: Faces, face: Face): (r: (Faces, Face))
    requires s.Valid()
    ensures r.1 == face
    ensures r.0.Valid() && GetFace(r.0, face.id) == Some(face)
    ensures forall id :: id != face.id ==> GetFace(r.0, id) == GetFace(s, id)
    ensures face.id in s.keys ==> r.0.keys == s.keys
    ensures face.id !in s.keys ==> r.0.keys == s.keys + [face.id]
    ensures Keyed(s) ==> Keyed(r.0)
  {
    (s.Put(face.id, face), face)
  }

  /** `getFace`: the face stored under `id`, if any. */
  function GetFace(s: Faces, id: string): (r: Option<Face>)
    ensures s.Valid() ==> (r.Some? <==> id in s.keys)
    ensures Keyed(s) && r.Some? ==> r.value.id == id
  {
    s.Get(id)
  }

  /** `getAllFaces`: the stored faces in insertion order. */
  function GetAllFaces(s: Faces): (fs: seq<Face>)
    requires s.Valid()
    ensures |fs| == |s.keys|
    ensures forall i :: 0 <= i < |fs| ==> GetFace(s, s.keys[i]) == Some(fs[i])
  {
    s.Values()
  }

  /** `deleteFace`: drop the face under `id`; `true` exactly when there was one. */
  function DeleteFace(s: Faces, id: string): (r: (Faces, bool))
    requires s.Valid()
    ensures r.1 <==> GetFace(s, id).Some?
    ensures r.0.Valid() && GetFace(r.0, id) == None
    ensures forall other :: other != id ==> GetFace(r.0, other) == GetFace(s, other)
    ensures r.0.keys == Without(s.keys, id)
    ensures !r.1 ==> r.0 == s
    ensures Keyed(s) ==> Keyed(r.0)
  {
    s.Remove(id)
  }

  /** `updateFace`: for an unknown id nothing changes and the answer is
      `undefined`; otherwise the updated face replaces the old one under
      the same key (even when the update changed its `id` field) and is
      returned. */
  function UpdateFace(s: Faces, id: string, patch: FacePatch): (r: (Faces, Option<Face>))
    requires s.Valid()
    ensures GetFace(s, id).None? ==> r == (s, None)
    ensures GetFace(s, id).Some? ==> r.1 == Some(Apply(GetFace(s, id).value, patch))
    ensures r.0.Valid() && GetFace(r.0, id) == (if r.1.Some? then r.1 else GetFace(s, id))
    ensures forall other :: other != id ==> GetFace(r.0, other) == GetFace(s, other)
    ensures r.0.keys == s.keys
    ensures Keyed(s) && (patch.id.Absent? || patch.id == Present(id)) ==> Keyed(r.0)
  {
    match s.Get(id)
    case None => (s, None)
    case Some(face) =>
      var updated := Apply(face, patch);
      (s.Put(id, updated), Some(updated))
  }

  /** Start-up: set each face of the saved list under its id, in order. */
  function Load(s: Faces, faces: seq<Face>): (r: Faces)
    requires s.Valid()
    ensures r.Valid()
    decreases |faces|
  {
    if |faces| == 0 then s else Load(s.Put(faces[0].id, faces[0]), faces[1..])
  }

  /** The last face in the list with the given id. */
  function LastWith(faces: seq<Face>, id: string): (r: Option<Face>)
    ensures r.None? <==> forall i :: 0 <= i < |faces| ==> faces[i].id != id
    ensures r.Some? ==> exists i :: 0 <= i < |faces| && faces[i] == r.value && r.value.id == id
                          && forall j :: i < j < |faces| ==> faces[j].id != id
    decreases |faces|
  {
    if |faces| == 0 then None
    else
      var rest := LastWith(faces[1..], id);
      if rest.Some? then
        ghost var i :| 0 <= i < |faces[1..]| && faces[1..][i] == rest.value && rest.value.id == id
                       && forall j :: i < j < |faces[1..]| ==> faces[1..][j].id != id;
        assert faces[i + 1] == rest.value;
        rest
      else if faces[0].id == id then Some(faces[0])
      else None
  }

  /** Loading a list with repeated ids keeps the last face of each id;
      ids the list does not mention keep what they had. */
  lemma {:induction false} LoadLastWins(s: Faces, faces: seq<Face>, id: string)
    requires s.Valid()
    ensures GetFace(Load(s, faces), id) == if LastWith(faces, id).Some? then LastWith(faces, id) else GetFace(s, id)
    decreases |faces|
  {
    if |faces| > 0 {
      LoadLastWins(s.Put(faces[0].id, faces[0]), faces[1..], id);
    }
  }

  /** Loading only appends keys: the ones already present keep their order. */
  lemma {:induction false} LoadKeepsOrder(s: Faces, faces: seq<Face>)
    requires s.Valid()
    ensures |Load(s, faces).keys| >= |s.keys| && Load(s, faces).keys[..|s.keys|] == s.keys
    decreases |faces|
  {
    if |faces| > 0 {
      var next := s.Put(faces[0].id, faces[0]);
      LoadKeepsOrder(next, faces[1..]);
      assert next.keys[..|s.keys|] == s.keys;
      assert Load(s, faces).keys[..|s.keys|] == Load(s, faces).keys[..|next.keys|][..|s.keys|];
    }
  }

  /** The first `n` keys of a store with their faces. */
  ghost function Prefix(s: Faces, n: nat): Faces
    requires s.Valid() && n <= |s.keys|
  {
    OrderedMap(s.keys[..n], map k | k in s.keys[..n] :: s.items[k])
  }

  lemma PrefixValid(s: Faces, n: nat)
    requires s.Valid() && n <= |s.keys|
    ensures Prefix(s, n).Valid()
  {
  }

  /** Setting the next key's face onto a prefix gives the next prefix. */
  lemma PrefixStep(s: Faces, n: nat)
    requires Keyed(s) && n < |s.keys|
    ensures Prefix(s, n).Valid()
    ensures Prefix(s, n).Put(s.Values()[n].id, s.Values()[n]) == Prefix(s, n + 1)
  {
    var k := s.keys[n];
    assert s.Values()[n] == s.items[k];
    assert k !in s.keys[..n];
    assert s.keys[..n + 1] == s.keys[..n] + [k];
    PrefixValid(s, n);
    assert Prefix(s, n).Put(k, s.items[k]).items == Prefix(s, n + 1).items;
  }

  /** Reading back what was saved from a prefix on completes the store. */
  lemma {:induction false} LoadCompletes(s: Faces, n: nat)
    requires Keyed(s) && n <= |s.keys|
    ensures Prefix(s, n).Valid()
    ensures Load(Prefix(s, n), s.Values()[n..]) == s
    decreases |s.keys| - n
  {
    PrefixValid(s, n);
    if n == |s.keys| {
      assert s.keys[..n] == s.keys;
      assert Prefix(s, n).items == s.items;
    } else {
      PrefixStep(s, n);
      LoadCompletes(s, n + 1);
      assert s.Values()[n..][1..] == s.Values()[n + 1..];
    }
  }

  /** Saving then starting up restores the store: loading the saved list
      of faces into an empty map gives back every face under its id, in
      the same order. */
  lemma SaveThenLoad(s: Faces)
    requires Keyed(s)
    ensures Load(Empty(), GetAllFaces(s)) == s
  {
    LoadCompletes(s, 0);
    assert Prefix(s, 0) == Empty();
    assert s.Values()[0..] == s.Values();
  }
}
