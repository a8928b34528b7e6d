/**
 Entity references of the software catalog, written `<kind>:<namespace>/<name>`.
 The formatting function belongs to an external catalog library; it is modelled
 here under the stated assumption that it lower-cases kind and namespace
 (ASCII letters only) and copies the name verbatim.
 */
module EntityRefs {
  import opened JsValues
  import Strings

  datatype CompoundRef = CompoundRef(kind: string, namespace: string, name: string)

  /** The catalog's default namespace. */
  const DefaultNamespace: string := "default"

  /** The kind of the entity the sign-in resolver refers to. */
  const UserKind: string := "User"

  function LowerChar(c: char): (d: char)
    ensures 'A' <= c <= 'Z' ==> 'a' <= d <= 'z' && d as int - 'a' as int == c as int - 'A' as int
    ensures !('A' <= c <= 'Z') ==> d == c
  {
    if 'A' <= c <= 'Z' then (c as int - 'A' as int + 'a' as int) as char else c
  }

  /** ASCII lower-casing, character by character. */
  function Lower(s: string): (r: string)
    ensures |r| == |s|
    ensures forall i :: 0 <= i < |s| ==> r[i] == LowerChar(s[i])
  {
    if s == [] then [] else [LowerChar(s[0])] + Lower(s[1..])
  }

  /** `stringifyEntityRef`: the textual form of a reference. */
  function Stringify(ref: CompoundRef): (s: string)
    ensures |s| == |ref.kind| + |ref.namespace| + |ref.name| + 2
  {
    Lower(ref.kind) + ":" + Lower(ref.namespace) + "/" + ref.name
  }

  /**
   Reads a textual reference back: the kind runs up to the first `:`, the
   namespace up to the next `/`, and the name is everything after that.
   */
  function Parse(s: string): (r: Option<CompoundRef>)
    ensures r.Present? ==> ':' !in r.value.kind && '/' !in r.value.namespace
    ensures r.Present? <==> ':' in s && '/' in Strings.AfterFirst(s, ':')
  {
    if ':' !in s then Absent
    else
      var rest := Strings.AfterFirst(s, ':');
      if '/' !in rest then Absent
      else Present(CompoundRef(Strings.FirstField(s, ':'), Strings.FirstField(rest, '/'),
                               Strings.AfterFirst(rest, '/')))
  }

  /**
   Parsing a stringified reference recovers it, with kind and namespace
   lower-cased, as long as the kind has no `:` and the namespace no `/`.
   */
  lemma ParseStringify(ref: CompoundRef)
    requires ':' !in ref.kind && '/' !in ref.namespace
    ensures Parse(Stringify(ref)) == Present(CompoundRef(Lower(ref.kind), Lower(ref.namespace), ref.name))
  {
    var k := Lower(ref.kind);
    var ns := Lower(ref.namespace);
    assert ':' !in k && '/' !in ns;
    var s := Stringify(ref);
    assert s == k + [':'] + (ns + "/" + ref.name);
    Strings.FirstFieldAround(k, ':', ns + "/" + ref.name);
    assert ns + "/" + ref.name == ns + ['/'] + ref.name;
    Strings.FirstFieldAround(ns, '/', ref.name);
  }

  /** The reference to the user entity called `name` in the default namespace. */
  function UserRef(name: string): (s: string)
    ensures s == "user:default/" + name
  {
    UserRefText(name);
    Stringify(CompoundRef(UserKind, DefaultNamespace, name))
  }

  lemma UserRefText(name: string)
    ensures Stringify(CompoundRef(UserKind, DefaultNamespace, name)) == "user:default/" + name
  {
    UserRefPrefix();
    var ref := CompoundRef(UserKind, DefaultNamespace, name);
    assert Stringify(ref) == (Lower(UserKind) + ":" + Lower(DefaultNamespace) + "/") + name;
  }

  lemma UserRefPrefix()
    ensures Lower(UserKind) + ":" + Lower(DefaultNamespace) + "/" == "user:default/"
  {
    LowerOfConstants();
  }

  /** A user reference reads back as kind `user`, the default namespace and the name. */
  lemma UserRefParses(name: string)
    ensures Parse(UserRef(name)) == Present(CompoundRef("user", "default", name))
  {
    ParseStringify(CompoundRef(UserKind, DefaultNamespace, name));
    LowerOfConstants();
  }

  lemma LowerOfConstants()
    ensures Lower(UserKind) == "user"
    ensures Lower(DefaultNamespace) == "default"
  {
    LowerOfUserKind();
    LowerOfDefaultNamespace();
  }

  lemma LowerOfUserKind()
    ensures Lower(UserKind) == "user"
  {
    var u := Lower(UserKind);
    assert u[0] == 'u' && u[1] == 's' && u[2] == 'e' && u[3] == 'r';
  }

  lemma LowerOfDefaultNamespace()
    ensures Lower(DefaultNamespace) == "default"
  {
    var d := Lower(DefaultNamespace);
    assert d[0] == 'd' && d[1] == 'e' && d[2] == 'f' && d[3] == 'a' && d[4] == 'u' && d[5] == 'l' && d[6] == 't';
  }

  /** Two user references are equal exactly when the user names are. */
  lemma UserRefInjective(a: string, b: string)
    ensures UserRef(a) == UserRef(b) <==> a == b
  {
    UserRefParses(a);
    UserRefParses(b);
  }
}
