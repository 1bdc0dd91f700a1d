/** The fake directory's update handler (transport/fake/directory.go), which stands in for
    ou_update.ps1.  It looks its object up once, where the script does so for every cmdlet,
    and stores a distinguished name where the
    script has a container, and takes it apart again; how a name is escaped into its
    first component is a parameter. */
module FakeUpdate {
  import opened Common
  import opened OUUpdate

  type Escaper = string -> string

  function Prefix(class_: string): string {
    if class_ == "organizationalUnit" then "OU=" else "CN="
  }

  function BuildDN(class_: string, escape: Escaper, name: string, container: DN): DN {
    Prefix(class_) + escape(name) + "," + container
  }

  /** A comma that does not follow a backslash. */
  predicate OpenComma(dn: DN, i: int) {
    0 <= i < |dn| && dn[i] == ',' && (i == 0 || dn[i - 1] != '\\')
  }

  function ParentFrom(dn: DN, i: nat): DN
    requires i <= |dn|
    decreases |dn| - i
  {
    if i == |dn| then "" else if OpenComma(dn, i) then dn[i + 1..] else ParentFrom(dn, i + 1)
  }

  /** parentOf. */
  method ParentOf(dn: DN) returns (r: DN)
    ensures r == ParentFrom(dn, 0)
  {
    for i := 0 to |dn|
      invariant ParentFrom(dn, i) == ParentFrom(dn, 0)
    {
      if dn[i] == ',' && (i == 0 || dn[i - 1] != '\\') {
        return dn[i + 1..];
      }
    }
    return "";
  }

  /** The first component is told apart from what follows it: no comma is open in it,
      and it does not end in a backslash, which would close the one behind it. */
  predicate SetsApart(rdn: string) {
    (forall i :: 0 <= i < |rdn| ==> !OpenComma(rdn, i)) && (rdn != "" ==> rdn[|rdn| - 1] != '\\')
  }

  lemma {:induction false} ParentIs(dn: DN, i: nat, k: nat)
    requires i <= k < |dn| && OpenComma(dn, k) && forall j :: i <= j < k ==> !OpenComma(dn, j)
    ensures ParentFrom(dn, i) == dn[k + 1..]
    decreases k - i
  {
    if i < k {
      ParentIs(dn, i + 1, k);
    }
  }

  lemma {:induction false} ParentShort(dn: DN, i: nat)
    requires i <= |dn|
    ensures |ParentFrom(dn, i)| <= |dn| - i && (i < |dn| ==> |ParentFrom(dn, i)| < |dn| - i)
    decreases |dn| - i
  {
    if i < |dn| && !OpenComma(dn, i) {
      ParentShort(dn, i + 1);
    }
  }

  lemma {:induction false} SkipTo(dn: DN, i: nat, k: nat)
    requires i <= k <= |dn| && forall j :: i <= j < k ==> !OpenComma(dn, j)
    ensures ParentFrom(dn, i) == ParentFrom(dn, k)
    decreases k - i
  {
    if i < k {
      SkipTo(dn, i + 1, k);
    }
  }

  /** parentOf gives back the container exactly when the first component sets itself
      apart.  A name whose escaped form ends in a backslash does not, although a name
      built from it is well formed. */
  lemma ParentExact(rdn: string, container: DN)
    requires container != ""
    ensures ParentFrom(rdn + "," + container, 0) == container <==> SetsApart(rdn)
  {
    var dn, n := rdn + "," + container, |rdn|;
    assert forall i :: 0 <= i < n ==> (OpenComma(dn, i) <==> OpenComma(rdn, i));
    assert dn[n] == ',' && dn[n + 1..] == container;
    if k :| OpenComma(rdn, k) {
      var first := FirstOpen(rdn, k);
      ParentIs(dn, 0, first);
      assert |dn[first + 1..]| > |container|;
    } else if OpenComma(dn, n) {
      ParentIs(dn, 0, n);
      assert rdn != "" ==> dn[n - 1] == rdn[n - 1];
    } else {
      SkipTo(dn, 0, n + 1);
      ParentShort(dn, n + 1);
      assert rdn[n - 1] == dn[n - 1] == '\\';
    }
  }

  lemma {:induction false} FirstOpen(rdn: string, k: int) returns (first: int)
    requires OpenComma(rdn, k)
    ensures OpenComma(rdn, first) && forall j :: 0 <= j < first ==> !OpenComma(rdn, j)
  {
    if j :| 0 <= j < k && OpenComma(rdn, j) {
      first := FirstOpen(rdn, j);
    } else {
      first := k;
    }
  }

  class FakeObject {
    const class_: string
    var dn: DN
    var name: string
    var description: string
    var protected: bool

    constructor (class_: string, escape: Escaper, ou: OU)
      ensures this.class_ == class_ && dn == BuildDN(class_, escape, ou.name, ou.container)
      ensures name == ou.name && description == ou.description && protected == ou.protected
    {
      this.class_ := class_;
      dn := BuildDN(class_, escape, ou.name, ou.container);
      name, description, protected := ou.name, ou.description, ou.protected;
    }

    /** What a reader of the object sees. */
    function Seen(): OU
      reads this
    {
      OU(name, ParentFrom(dn, 0), description, protected)
    }

    predicate Apart(escape: Escaper, name: string)
      reads this
    {
      SetsApart(Prefix(class_) + escape(name))
    }

    /** handleUpdate, on an object that has been found.  Name, description, protection and
        refusal are those of the payload's writes, half-done updates included.  A container
        there is, is theirs too, exactly unless the distinguished name was built anew from a
        name that does not set itself apart. */
    method HandleUpdate(escape: Escaper, p: Payload) returns (ok: bool)
      modifies this
      ensures
        var (ou, done) := Run(p, old(Seen()));
        && ok == done && Seen() == ou.(container := Seen().container)
        && (ou.container != "" ==>
              (Seen().container == ou.container
               <==> (p.rename.None? && (p.move.None? || !ok)) || Apart(escape, name)))
    {
      hide Run, RunTo, ParentFrom, SetsApart, BuildDN, Prefix;
      RunUnrolled(p, Seen());
      if p.set_.Some? {
        description := if p.set_.value.Param? then p.set_.value.value else "";
      }
      if p.rename.Some? {
        name := p.rename.value;
        var parent := ParentOf(dn);
        dn := BuildDN(class_, escape, name, parent);
        Rebuilt(class_, escape, name, parent);
      }
      if p.move.Some? {
        if p.unprotectBeforeMove {
          protected := false;
        }
        if protected {
          return false;
        }
        dn := BuildDN(class_, escape, name, p.move.value);
        Rebuilt(class_, escape, name, p.move.value);
      }
      if p.protect.Some? {
        protected := p.protect.value;
      }
      return true;
    }
  }

  /** For a planned payload the writes are what the script comes to exactly when it is given
      a GUID, or the distinguished name is not to change: otherwise the fake succeeds where
      the script no longer finds its object. */
  lemma FakeAgreesIff(call: Call, current: OU, spec: OUSpec, p: Payload)
    requires Planned(call.key, current, spec, p) && call.Finds(current) && call.Unrefused()
    ensures Run(p, current) == Executes(call, p, current) <==> call.id.Stable? || SameDN(call.key, current, spec)
  {
    hide Run, Executes, Minimal, SameDN, Resolves;
    PlanExecutesIff(call, current, spec, p);
  }

  lemma Rebuilt(class_: string, escape: Escaper, name: string, container: DN)
    ensures container != "" ==>
      (ParentFrom(BuildDN(class_, escape, name, container), 0) == container
       <==> SetsApart(Prefix(class_) + escape(name)))
  {
    hide SetsApart, ParentFrom;
    if container != "" {
      ParentExact(Prefix(class_) + escape(name), container);
    }
  }

  /** A name ending in a backslash, escaped as a pair of them, does not set itself apart:
      what is read back is the container's own container. */
  lemma BackslashName(escape: Escaper)
    requires escape("x\\") == "x\\\\"
    ensures BuildDN("organizationalUnit", escape, "x\\", "OU=a,DC=b") == "OU=x\\\\,OU=a,DC=b"
    ensures BuildDN("user", escape, "x\\", "OU=a,DC=b") == "CN=x\\\\,OU=a,DC=b"
    ensures !SetsApart("OU=x\\\\")
    ensures ParentFrom("OU=x\\\\,OU=a,DC=b", 0) == "DC=b"
  {
    var dn := "OU=x\\\\,OU=a,DC=b";
    assert dn[11] == ',' && dn[12..] == "DC=b";
    ParentIs(dn, 0, 11);
  }
}
