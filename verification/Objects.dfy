/** Reading and labelling unstructured Kubernetes objects. */
module Objects {
  import opened Text
  import opened Trees

  const COLLECTION_INDEX_LABEL := "kro.run/collection-index"

  function StringAt(obj: Json, p: Path): string {
    match Get(obj, p) case Some(Str(s)) => s case _ => ""
  }

  function MetadataField(name: string): Path {
    [Field("metadata"), Field(name)]
  }

  function Name(obj: Json): string {
    StringAt(obj, MetadataField("name"))
  }

  function Namespace(obj: Json): string {
    StringAt(obj, MetadataField("namespace"))
  }

  /** Group and version of an `apiVersion`; nothing if it has more than one slash. */
  function GroupVersion(apiVersion: string): Option<(string, string)> {
    var n := Span(apiVersion, {'/'});
    if apiVersion == "" || apiVersion == "/" then Some(("", ""))
    else if n == |apiVersion| then Some(("", apiVersion))
    else if '/' in apiVersion[n + 1..] then None
    else Some((apiVersion[..n], apiVersion[n + 1..]))
  }

  /** `group/version/kind/namespace/name`; a malformed `apiVersion` leaves the first three empty. */
  function IdentityKey(obj: Json): string {
    var gvk := match GroupVersion(StringAt(obj, [Field("apiVersion")]))
      case Some((group, version)) => group + "/" + version + "/" + StringAt(obj, [Field("kind")])
      case None => "//";
    gvk + "/" + Namespace(obj) + "/" + Name(obj)
  }

  predicate DistinctIdentities(objs: seq<Json>) {
    forall i, j | 0 <= i < j < |objs| :: IdentityKey(objs[i]) != IdentityKey(objs[j])
  }

  // ---- What an identity says. ----

  predicate NoSlash(s: string) {
    '/' !in s
  }

  lemma FirstPart(a: string, r: string, b: string, s: string)
    requires NoSlash(a) && NoSlash(b)
    ensures a + "/" + r == b + "/" + s <==> a == b && r == s
  {
    var t, u := a + ("/" + r), b + ("/" + s);
    assert t == a + "/" + r && u == b + "/" + s;
    SpanOfPrefix(a, "/" + r, {'/'});
    SpanOfPrefix(b, "/" + s, {'/'});
    assert t[|a|..][1..] == r && u[|b|..][1..] == s;
  }

  /** A group and a version are told apart by the slash; a version alone has the empty group. */
  lemma GroupVersionRead(group: string, version: string)
    requires NoSlash(group) && NoSlash(version)
    ensures GroupVersion(group + "/" + version) == Some((group, version)) && GroupVersion(version) == Some(("", version))
    ensures GroupVersion(group + "/" + version + "/") == None
  {
    SpanOfPrefix(group, "/" + version, {'/'});
    SpanOfPrefix(group, "/" + version + "/", {'/'});
    SpanOfPrefix(version, "", {'/'});
    assert group + ("/" + version) == group + "/" + version && version + "" == version;
    assert group + ("/" + version + "/") == group + "/" + version + "/";
    assert ("/" + version)[1..] == version && ("/" + version + "/")[1..] == version + "/";
    var s := group + "/" + version + "/";
    assert s[|group| + 1..] == version + "/" && (version + "/")[|version|] == '/';
    assert (group + "/" + version)[|group| + 1..] == version;
  }

  lemma GroupVersionParts(apiVersion: string)
    ensures var r := GroupVersion(apiVersion); r.Some? ==> NoSlash(r.value.0) && NoSlash(r.value.1)
  {
  }

  lemma KeyParts(obj: Json)
    requires GroupVersion(StringAt(obj, [Field("apiVersion")])).Some?
    ensures var (g, v) := GroupVersion(StringAt(obj, [Field("apiVersion")])).value;
            IdentityKey(obj) == g + "/" + (v + "/" + (StringAt(obj, [Field("kind")]) + "/" + (Namespace(obj) + "/" + Name(obj))))
  {
    hide StringAt, GroupVersion, Name, Namespace;
  }

  /** Objects have the same identity if and only if they agree in group, version, kind, namespace and name. */
  lemma IdentityKeyDecides(a: Json, b: Json)
    requires GroupVersion(StringAt(a, [Field("apiVersion")])).Some? && GroupVersion(StringAt(b, [Field("apiVersion")])).Some?
    requires NoSlash(StringAt(a, [Field("kind")])) && NoSlash(StringAt(a, [Field("metadata"), Field("namespace")]))
    requires NoSlash(StringAt(b, [Field("kind")])) && NoSlash(StringAt(b, [Field("metadata"), Field("namespace")]))
    ensures IdentityKey(a) == IdentityKey(b) <==>
            && GroupVersion(StringAt(a, [Field("apiVersion")])) == GroupVersion(StringAt(b, [Field("apiVersion")]))
            && StringAt(a, [Field("kind")]) == StringAt(b, [Field("kind")])
            && StringAt(a, [Field("metadata"), Field("namespace")]) == StringAt(b, [Field("metadata"), Field("namespace")])
            && StringAt(a, [Field("metadata"), Field("name")]) == StringAt(b, [Field("metadata"), Field("name")])
  {
    hide StringAt, GroupVersion;
    var (g, v) := GroupVersion(StringAt(a, [Field("apiVersion")])).value;
    var (h, w) := GroupVersion(StringAt(b, [Field("apiVersion")])).value;
    GroupVersionParts(StringAt(a, [Field("apiVersion")]));
    GroupVersionParts(StringAt(b, [Field("apiVersion")]));
    var k, l := StringAt(a, [Field("kind")]), StringAt(b, [Field("kind")]);
    var n, m := Namespace(a) + "/" + Name(a), Namespace(b) + "/" + Name(b);
    KeyParts(a);
    KeyParts(b);
    hide IdentityKey;
    FirstPart(g, v + "/" + (k + "/" + n), h, w + "/" + (l + "/" + m));
    FirstPart(v, k + "/" + n, w, l + "/" + m);
    FirstPart(k, n, l, m);
    FirstPart(Namespace(a), Name(a), Namespace(b), Name(b));
  }

  /** Among objects of one kind in one namespace, whatever their texts are, names decide. */
  lemma NamesTellApart(a: Json, b: Json)
    requires StringAt(a, [Field("apiVersion")]) == StringAt(b, [Field("apiVersion")])
    requires StringAt(a, [Field("kind")]) == StringAt(b, [Field("kind")])
    requires StringAt(a, [Field("metadata"), Field("namespace")]) == StringAt(b, [Field("metadata"), Field("namespace")])
    ensures IdentityKey(a) == IdentityKey(b) <==>
            StringAt(a, [Field("metadata"), Field("name")]) == StringAt(b, [Field("metadata"), Field("name")])
  {
    hide StringAt, GroupVersion;
    var gvk := match GroupVersion(StringAt(a, [Field("apiVersion")]))
      case Some((group, version)) => group + "/" + version + "/" + StringAt(a, [Field("kind")])
      case None => "//";
    var prefix := gvk + "/" + Namespace(a) + "/";
    assert IdentityKey(a) == prefix + Name(a) && IdentityKey(b) == prefix + Name(b);
    assert (prefix + Name(a))[|prefix|..] == Name(a) && (prefix + Name(b))[|prefix|..] == Name(b);
  }

  method ValidateUniqueIdentities(objs: seq<Json>) returns (ok: bool)
    ensures ok <==> DistinctIdentities(objs)
  {
    hide IdentityKey;
    var seen: set<string> := {};
    for i := 0 to |objs|
      invariant DistinctIdentities(objs[..i])
      invariant forall key :: key in seen <==> exists j | 0 <= j < i :: IdentityKey(objs[j]) == key
    {
      var key := IdentityKey(objs[i]);
      if key in seen {
        return false;
      }
      seen := seen + {key};
    }
    assert objs[..|objs|] == objs;
    return true;
  }

  /** The string labels of an object; none if one of them is not a string. */
  function Labels(obj: Json): map<string, Json> {
    match Get(obj, MetadataField("labels"))
    case Some(Obj(labels)) => if forall k | k in labels :: labels[k].Str? then labels else map[]
    case _ => map[]
  }

  /** Items of collections are recognised by their label. */
  predicate HasIndex(obj: Json) {
    COLLECTION_INDEX_LABEL in Labels(obj)
  }

  /** The object with its place in the collection as a label; unchanged if it has metadata, null included, that is no object. */
  function WithCollectionIndex(obj: Json, index: nat): Json {
    if Get(obj, [Field("metadata")]) == Some(Null) then obj
    else Put(obj, MetadataField("labels"), Obj(Labels(obj)[COLLECTION_INDEX_LABEL := Str(Itoa(index))])).tree
  }

  /** The object has metadata, or can be given some. */
  predicate TakesLabels(obj: Json) {
    obj.Obj? && ("metadata" in obj.fields ==> obj.fields["metadata"].Obj?)
  }

  function LabelPath(name: string): Path {
    MetadataField("labels") + [Field(name)]
  }

  function MemberOf(o: Option<Json>, name: string): Option<Json> {
    match o case Some(Obj(fields)) => if name in fields then Some(fields[name]) else None case _ => None
  }

  lemma LabelsRead(obj: Json, name: string)
    ensures Get(obj, LabelPath(name)) == MemberOf(Get(obj, MetadataField("labels")), name)
  {
    GetThrough(obj, MetadataField("labels"), [Field(name)]);
  }

  lemma {:induction false} GetThrough(t: Json, p: Path, q: Path)
    ensures Get(t, p + q) == match Get(t, p) case Some(u) => Get(u, q) case None => None
    decreases |p|
  {
    if p == [] {
      assert p + q == q;
    } else if Present(t, p[0]) {
      GetThrough(At(t, p[0]), p[1..], q);
      assert (p + q)[1..] == p[1..] + q;
    }
  }

  /**
    An item carries its number as a label, if labels can be put on it at all; labels that it had stay, if all are strings.
   */
  lemma IndexLabelled(obj: Json, index: nat)
    ensures var r := WithCollectionIndex(obj, index);
            && (HasIndex(r) <==> TakesLabels(obj))
            && (TakesLabels(obj) ==> Get(r, LabelPath("kro.run/collection-index")) == Some(Str(Itoa(index))))
            && (TakesLabels(obj) && (forall k | Get(obj, LabelPath(k)).Some? :: Get(obj, LabelPath(k)).value.Str?) ==>
                 forall k | k != "kro.run/collection-index" :: Get(r, LabelPath(k)) == Get(obj, LabelPath(k)))
  {
    if TakesLabels(obj) {
      LabelsNow(obj, index);
    } else {
      Unlabelled(obj, index);
    }
    hide WithCollectionIndex, MetadataField, TakesLabels, LabelPath;
    if forall k | Get(obj, LabelPath(k)).Some? :: Get(obj, LabelPath(k)).value.Str? {
      StringLabels(obj);
    }
  }

  lemma LabelsNow(obj: Json, index: nat)
    requires TakesLabels(obj)
    ensures var r, all := WithCollectionIndex(obj, index), Labels(obj)[COLLECTION_INDEX_LABEL := Str(Itoa(index))];
            HasIndex(r) && forall k :: Get(r, LabelPath(k)) == if k in all then Some(all[k]) else None
  {
    var r, path, all := WithCollectionIndex(obj, index), MetadataField("labels"), Labels(obj)[COLLECTION_INDEX_LABEL := Str(Itoa(index))];
    MetadataRead(obj);
    PutOkHere(obj, Obj(all));
    PutGet(obj, path, Obj(all));
    hide WithCollectionIndex, MetadataField, TakesLabels, LabelPath;
    assert Get(r, path) == Some(Obj(all));
    forall k ensures Get(r, LabelPath(k)) == if k in all then Some(all[k]) else None {
      LabelsRead(r, k);
    }
  }

  lemma StringLabels(obj: Json)
    requires forall k | Get(obj, LabelPath(k)).Some? :: Get(obj, LabelPath(k)).value.Str?
    ensures forall k :: Get(obj, LabelPath(k)) == if k in Labels(obj) then Some(Labels(obj)[k]) else None
  {
    hide LabelPath, MetadataField;
    var o := Get(obj, MetadataField("labels"));
    forall k ensures Get(obj, LabelPath(k)) == MemberOf(o, k) {
      LabelsRead(obj, k);
    }
    if o.Some? && o.value.Obj? {
      forall k | k in o.value.fields ensures o.value.fields[k].Str? {
        assert Get(obj, LabelPath(k)) == Some(o.value.fields[k]);
      }
    }
  }

  lemma MetadataRead(obj: Json)
    ensures Get(obj, [Field("metadata")]) == if obj.Obj? && "metadata" in obj.fields then Some(obj.fields["metadata"]) else None
  {
  }

  lemma PutOkHere(obj: Json, v: Json)
    requires TakesLabels(obj)
    ensures Put(obj, MetadataField("labels"), v).ok
  {
    LabelsFit(obj);
    PutOkIff(obj, MetadataField("labels"), v);
  }

  lemma LabelsFit(obj: Json)
    ensures Fits(obj, MetadataField("labels")) <==> obj.Obj? && ("metadata" in obj.fields ==> obj.fields["metadata"].Obj? || obj.fields["metadata"].Null?)
  {
    var path := MetadataField("labels");
    assert path[..0] == [] && path[..1] == [Field("metadata")];
    MetadataRead(obj);
  }

  lemma Unlabelled(obj: Json, index: nat)
    requires !TakesLabels(obj)
    ensures WithCollectionIndex(obj, index) == obj && !HasIndex(obj)
  {
    var path := MetadataField("labels");
    MetadataRead(obj);
    GetThrough(obj, [Field("metadata")], [Field("labels")]);
    assert path == [Field("metadata")] + [Field("labels")];
    if Get(obj, [Field("metadata")]) != Some(Null) {
      var v := Obj(Labels(obj)[COLLECTION_INDEX_LABEL := Str(Itoa(index))]);
      LabelsFit(obj);
      PutOkIff(obj, path, v);
      PutFailsUnchanged(obj, path, v);
    }
  }

  /** Labelling changes neither identity nor name. */
  lemma IndexKeepsIdentity(obj: Json, index: nat)
    ensures IdentityKey(WithCollectionIndex(obj, index)) == IdentityKey(obj)
    ensures Name(WithCollectionIndex(obj, index)) == Name(obj)
  {
    var labels := MetadataField("labels");
    assert |"labels"| != |"name"| && |"labels"| != |"namespace"| && |"metadata"| != |"apiVersion"| && |"metadata"| != |"kind"|;
    assert labels[0] == Field("metadata") && labels[1] == Field("labels");
    assert MetadataField("name")[1] == Field("name") && MetadataField("namespace")[1] == Field("namespace");
    assert [Field("apiVersion")][0] != labels[0] && [Field("kind")][0] != labels[0];
    LabelsElsewhere(obj, index, MetadataField("name"));
    LabelsElsewhere(obj, index, MetadataField("namespace"));
    LabelsElsewhere(obj, index, [Field("apiVersion")]);
    LabelsElsewhere(obj, index, [Field("kind")]);
  }

  lemma LabelsElsewhere(obj: Json, index: nat, q: Path)
    requires Unrelated(MetadataField("labels"), q)
    ensures StringAt(WithCollectionIndex(obj, index), q) == StringAt(obj, q)
  {
    var v := Obj(Labels(obj)[COLLECTION_INDEX_LABEL := Str(Itoa(index))]);
    if Get(obj, [Field("metadata")]) == Some(Null) {
    } else if Get(obj, q).Some? {
      PutFrame(obj, MetadataField("labels"), v, q);
    } else if Get(WithCollectionIndex(obj, index), q).Some? {
      PutAddsOnlyGaps(obj, MetadataField("labels"), v, q);
    }
  }

  // ---- Observed objects in the order of the desired ones. ----

  /** The last object with the key; none if there is no such object. */
  function LastWithKey(objs: seq<Json>, key: string): Option<Json> {
    if objs == [] then None
    else
      var o := objs[|objs| - 1];
      if IdentityKey(o) == key then Some(o) else LastWithKey(objs[..|objs| - 1], key)
  }

  function Matching(observed: seq<Json>, desired: seq<Json>): seq<Json> {
    if desired == [] then []
    else
      var n := |desired| - 1;
      match LastWithKey(observed, IdentityKey(desired[n]))
      case Some(o) => Matching(observed, desired[..n]) + [o]
      case None => Matching(observed, desired[..n])
  }

  /** Without observed or desired objects there is nothing to align. */
  function Aligned(observed: seq<Json>, desired: seq<Json>): seq<Json> {
    if observed == [] || desired == [] then observed else Matching(observed, desired)
  }

  method OrderedIntersection(observed: seq<Json>, desired: seq<Json>) returns (r: seq<Json>)
    ensures r == Aligned(observed, desired)
    ensures observed == [] || desired == [] ==> r == observed
  {
    hide IdentityKey;
    if |observed| == 0 || |desired| == 0 {
      return observed;
    }
    var observedByKey: map<string, Json> := map[];
    for i := 0 to |observed|
      invariant forall key :: LastWithKey(observed[..i], key) == if key in observedByKey then Some(observedByKey[key]) else None
    {
      assert observed[..i + 1][..i] == observed[..i];
      observedByKey := observedByKey[IdentityKey(observed[i]) := observed[i]];
    }
    assert observed[..|observed|] == observed;
    r := [];
    for i := 0 to |desired|
      invariant r == Matching(observed, desired[..i])
    {
      assert desired[..i + 1][..i] == desired[..i];
      var key := IdentityKey(desired[i]);
      if key in observedByKey {
        r := r + [observedByKey[key]];
      }
    }
    assert desired[..|desired|] == desired;
  }

  lemma {:induction false} LastWithKeyIs(objs: seq<Json>, key: string)
    ensures var r := LastWithKey(objs, key);
            if r.Some? then
              exists i :: 0 <= i < |objs| && r.value == objs[i] && IdentityKey(objs[i]) == key && forall j | i < j < |objs| :: IdentityKey(objs[j]) != key
            else forall o | o in objs :: IdentityKey(o) != key
    ensures DistinctIdentities(objs) ==> forall o | o in objs && IdentityKey(o) == key :: LastWithKey(objs, key) == Some(o)
  {
    hide IdentityKey;
    if objs != [] {
      LastWithKeyIs(objs[..|objs| - 1], key);
      assert objs == objs[..|objs| - 1] + [objs[|objs| - 1]];
    }
  }

  /** The place of the desired object that `o` belongs to. */
  predicate BelongsAt(desired: seq<Json>, o: Json, place: nat) {
    place < |desired| && IdentityKey(desired[place]) == IdentityKey(o)
  }

  predicate IsDesired(desired: seq<Json>, o: Json) {
    exists place | 0 <= place < |desired| :: BelongsAt(desired, o, place)
  }

  lemma MorePlaces(desired: seq<Json>, o: Json)
    requires desired != []
    ensures IsDesired(desired, o) <==> BelongsAt(desired, o, |desired| - 1) || IsDesired(desired[..|desired| - 1], o)
  {
    hide IdentityKey;
    var fewer := desired[..|desired| - 1];
    forall place | 0 <= place < |fewer| ensures BelongsAt(fewer, o, place) <==> BelongsAt(desired, o, place) {
    }
  }

  /**
    With distinct identities on both sides, alignment keeps exactly the observed objects that are desired, each once,
    in the order in which they are desired.
   */
  lemma {:induction false} MatchingAligns(observed: seq<Json>, desired: seq<Json>) returns (places: seq<nat>)
    requires DistinctIdentities(observed) && DistinctIdentities(desired)
    ensures forall o :: o in Matching(observed, desired) <==> o in observed && IsDesired(desired, o)
    ensures |places| == |Matching(observed, desired)|
    ensures forall i | 0 <= i < |places| :: BelongsAt(desired, Matching(observed, desired)[i], places[i])
    ensures forall i, j | 0 <= i < j < |places| :: places[i] < places[j]
  {
    hide IdentityKey;
    places := [];
    if desired != [] {
      var n := |desired| - 1;
      places := MatchingAligns(observed, desired[..n]);
      LastWithKeyIs(observed, IdentityKey(desired[n]));
      forall o ensures o in Matching(observed, desired) <==> o in observed && IsDesired(desired, o) {
        MorePlaces(desired, o);
      }
      if LastWithKey(observed, IdentityKey(desired[n])).Some? {
        places := places + [n];
      }
    }
  }
}
