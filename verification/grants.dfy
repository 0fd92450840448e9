/** Skill grants: the `{name, since}` records a team document holds, in
    insertion order, and the queries the store runs over them.
 */
module Grants {

  /** One skill enabled for a team; `since` is the grant instant in milliseconds. */
  datatype Grant = Grant(name: string, since: int)

  /** Some grant of the list carries `name` (an `$elemMatch` on the name, or
      the `find` by name over a team's skills). */
  predicate HasSkill(grants: seq<Grant>, name: string) {
    exists i :: 0 <= i < |grants| && grants[i].name == name
  }

  /** The set of skill names a list of grants enables. */
  function Names(grants: seq<Grant>): set<string> {
    set i | 0 <= i < |grants| :: grants[i].name
  }

  /** At most one grant per skill name: the invariant the duplicate check
      before every insertion is there to keep. */
  ghost predicate Unique(grants: seq<Grant>) {
    forall i, j :: 0 <= i < j < |grants| ==> grants[i].name != grants[j].name
  }

  /** The `$pull` of every grant named `name`; the others keep their order. */
  function Without(grants: seq<Grant>, name: string): (r: seq<Grant>)
    ensures forall g :: g in r <==> g in grants && g.name != name
    ensures |r| <= |grants|
    ensures !HasSkill(r, name)
    ensures !HasSkill(grants, name) ==> r == grants
    ensures Unique(grants) ==> Unique(r)
  {
    if |grants| == 0 then []
    else if grants[0].name == name then Without(grants[1..], name)
    else [grants[0]] + Without(grants[1..], name)
  }

  /** Removal distributes over concatenation, so it keeps the relative
      order of the grants it leaves. */
  lemma {:induction false} WithoutAppend(a: seq<Grant>, b: seq<Grant>, name: string)
    ensures Without(a + b, name) == Without(a, name) + Without(b, name)
    decreases |a|
  {
    if |a| == 0 {
      assert a + b == b;
    } else {
      assert (a + b)[1..] == a[1..] + b;
      WithoutAppend(a[1..], b, name);
    }
  }

  /** Removing a name leaves every other name enabled exactly as before. */
  lemma WithoutNames(grants: seq<Grant>, name: string)
    ensures Names(Without(grants, name)) == Names(grants) - {name}
  {
    var r := Without(grants, name);
    forall n | n in Names(grants) - {name}
      ensures n in Names(r)
    {
      var i :| 0 <= i < |grants| && grants[i].name == n;
      assert grants[i] in r;
      var j :| 0 <= j < |r| && r[j] == grants[i];
    }
    forall n | n in Names(r)
      ensures n in Names(grants) - {name}
    {
      var j :| 0 <= j < |r| && r[j].name == n;
      assert r[j] in grants;
    }
  }

  /** Appending a grant enables exactly its name in addition. */
  lemma NamesAppend(grants: seq<Grant>, g: Grant)
    ensures Names(grants + [g]) == Names(grants) + {g.name}
  {
    var r := grants + [g];
    assert r[|grants|] == g;
    forall n | n in Names(grants)
      ensures n in Names(r)
    {
      var i :| 0 <= i < |grants| && grants[i].name == n;
      assert r[i] == grants[i];
    }
  }
}
