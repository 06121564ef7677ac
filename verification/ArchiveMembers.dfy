/** The check of an archive's member list before anything is extracted, and what it accepts. */
module ArchiveMembers {

  datatype Kind = File | Directory | Other

  datatype Member = Member(name: string, kind: Kind, mode: int, size: int)

  // ---- Paths ----

  predicate Component(c: string) {
    c != "" && '/' !in c
  }

  predicate Components(parts: seq<string>) {
    forall i :: 0 <= i < |parts| ==> Component(parts[i])
  }

  function Split(s: string): (parts: seq<string>)
    ensures |parts| > 0 && forall i :: 0 <= i < |parts| ==> '/' !in parts[i]
  {
    if s == "" then [""]
    else
      var rest := Split(s[1..]);
      if s[0] == '/' then [""] + rest else [[s[0]] + rest[0]] + rest[1..]
  }

  function Join(parts: seq<string>): string
    requires parts != []
  {
    if |parts| == 1 then parts[0] else parts[0] + "/" + Join(parts[1..])
  }

  /** Empty and `.` components disappear. */
  function Drop(parts: seq<string>): (r: seq<string>)
    ensures (forall i :: 0 <= i < |parts| ==> '/' !in parts[i]) ==> Components(r)
  {
    if parts == [] then []
    else if parts[0] == "" || parts[0] == "." then Drop(parts[1..])
    else [parts[0]] + Drop(parts[1..])
  }

  /** `PurePosixPath(name).parts` of a relative name. */
  function Parts(name: string): (parts: seq<string>)
    ensures Components(parts)
  {
    Drop(Split(name))
  }

  /** `str(PurePosixPath(name))` */
  function Normalized(name: string): string {
    if Parts(name) == [] then "." else Join(Parts(name))
  }

  lemma {:induction false} SplitAfter(a: string, t: string)
    requires '/' !in a
    ensures Split(a + "/" + t) == [a] + Split(t) && Split(a) == [a]
  {
    if a == "" {
      assert ("/" + t)[1..] == t && a + "/" + t == "/" + t;
    } else {
      SplitAfter(a[1..], t);
      assert (a + "/" + t)[1..] == a[1..] + "/" + t;
      assert a == [a[0]] + a[1..];
    }
  }

  lemma {:induction false} SplitAfterJoin(p: seq<string>, t: string)
    requires p != [] && Components(p)
    ensures Split(Join(p) + "/" + t) == p + Split(t)
  {
    hide Split;
    if |p| == 1 {
      SplitAfter(p[0], t);
      assert p == [p[0]];
    } else {
      SplitAfterJoin(p[1..], t);
      SplitAfter(p[0], Join(p[1..]) + "/" + t);
      assert Join(p) + "/" + t == p[0] + "/" + (Join(p[1..]) + "/" + t);
      assert p == [p[0]] + p[1..];
    }
  }

  lemma {:induction false} SplitOfJoin(p: seq<string>)
    requires p != [] && Components(p)
    ensures Split(Join(p)) == p
  {
    hide Split;
    if |p| == 1 {
      SplitAfter(p[0], "");
    } else {
      SplitOfJoin(p[1..]);
      SplitAfter(p[0], Join(p[1..]));
    }
  }

  lemma JoinInjective(p: seq<string>, q: seq<string>)
    requires p != [] && q != []
    requires Components(p) && Components(q)
    ensures Join(p) == Join(q) <==> p == q
  {
    SplitOfJoin(p);
    SplitOfJoin(q);
  }

  lemma {:induction false} JoinOfAppend(p: seq<string>, r: seq<string>)
    requires p != [] && r != []
    ensures Join(p + r) == Join(p) + "/" + Join(r)
  {
    if |p| == 1 {
      assert (p + r)[1..] == r;
    } else {
      JoinOfAppend(p[1..], r);
      assert (p + r)[1..] == p[1..] + r;
    }
  }

  /** The textual test for lying below is the structural one: `a` is not above `ab`. */
  lemma BelowIffPrefix(p: seq<string>, q: seq<string>)
    requires p != [] && q != []
    requires Components(p) && Components(q)
    ensures Join(p) + "/" <= Join(q) <==> p < q
  {
    if p < q {
      JoinOfAppend(p, q[|p|..]);
      assert p + q[|p|..] == q;
    }
    if Join(p) + "/" <= Join(q) {
      var t := Join(q)[|Join(p) + "/"|..];
      assert Join(q) == Join(p) + "/" + t;
      SplitAfterJoin(p, t);
      SplitOfJoin(q);
      assert p < p + Split(t);
    }
  }

  lemma SameName(a: string, b: string)
    requires Parts(a) != [] && Parts(b) != []
    ensures Normalized(a) == Normalized(b) <==> Parts(a) == Parts(b)
    ensures Normalized(a) + "/" <= Normalized(b) <==> Parts(a) < Parts(b)
  {
    hide Split, Join, Parts, Components;
    JoinInjective(Parts(a), Parts(b));
    BelowIffPrefix(Parts(a), Parts(b));
  }

  /** `path.parents` without the last one, `.` */
  function Parent(name: string, k: nat): string
    requires 1 <= k < |Parts(name)|
  {
    Join(Parts(name)[..k])
  }

  lemma ParentIsPrefix(a: string, b: string, k: nat)
    requires 1 <= k < |Parts(b)| && Parts(a) != []
    ensures Parent(b, k) == Normalized(a) <==> Parts(a) == Parts(b)[..k]
  {
    hide Split, Join;
    assert Components(Parts(b)[..k]);
    hide Parts, Components;
    JoinInjective(Parts(b)[..k], Parts(a));
  }

  // ---- What is acceptable ----

  /** What a member must satisfy by itself. */
  predicate Plain(m: Member) {
    && m.name != "" && '\\' !in m.name && '\0' !in m.name && m.name[0] != '/'
    && Parts(m.name) != [] && (forall i :: 0 <= i < |m.name| ==> m.name[i] as int >= 32)
    && ".." !in Parts(m.name) && ".git" !in Parts(m.name)
    && (m.kind.File? || m.kind.Directory?) && m.mode / 1024 % 4 == 0
    && m.size >= 0
  }

  /** Two members can be extracted into one tree: different places, and nothing below a file. */
  ghost predicate Compatible(a: Member, b: Member) {
    && Parts(a.name) != Parts(b.name)
    && (a.kind.File? ==> !(Parts(a.name) < Parts(b.name)))
    && (b.kind.File? ==> !(Parts(b.name) < Parts(a.name)))
  }

  function Total(ms: seq<Member>): int {
    if ms == [] then 0 else ms[0].size + Total(ms[1..])
  }

  ghost predicate Tree(ms: seq<Member>) {
    && (forall i :: 0 <= i < |ms| ==> Plain(ms[i]))
    && (forall i, j :: 0 <= i < j < |ms| ==> Compatible(ms[i], ms[j]))
  }

  ghost predicate Acceptable(ms: seq<Member>, limit: nat, bytesLimit: nat) {
    |ms| <= limit && Tree(ms) && Total(ms) <= bytesLimit
  }

  // ---- The order does not matter ----

  lemma {:induction false} TotalOfInsert(a: seq<Member>, m: Member, b: seq<Member>)
    ensures Total(a + [m] + b) == m.size + Total(a + b)
  {
    if a == [] {
      assert a + [m] + b == [m] + b && a + b == b;
    } else {
      TotalOfInsert(a[1..], m, b);
      assert (a + [m] + b)[1..] == a[1..] + [m] + b && (a + b)[1..] == a[1..] + b;
    }
  }

  lemma WithoutOne(ms: seq<Member>, i: nat)
    requires i < |ms|
    ensures multiset(ms[..i] + ms[i + 1..]) == multiset(ms) - multiset{ms[i]}
  {
    assert ms == ms[..i] + [ms[i]] + ms[i + 1..];
  }

  lemma SameLength(ms: seq<Member>, ns: seq<Member>)
    requires multiset(ms) == multiset(ns)
    ensures |ms| == |ns| && (ms != [] ==> ms[0] in multiset(ns))
  {
    assert |ms| == |multiset(ms)| == |multiset(ns)| == |ns|;
  }

  lemma WithoutFirst(ms: seq<Member>)
    requires ms != []
    ensures multiset(ms[1..]) == multiset(ms) - multiset{ms[0]} && Total(ms) == ms[0].size + Total(ms[1..])
  {
    WithoutOne(ms, 0);
    assert ms[..0] + ms[1..] == ms[1..];
  }

  lemma {:induction false} TotalOfPermutation(ms: seq<Member>, ns: seq<Member>)
    requires multiset(ms) == multiset(ns)
    ensures Total(ms) == Total(ns) && |ms| == |ns|
    decreases |ms|
  {
    SameLength(ms, ns);
    if ms == [] {
      assert ns == [];
    } else {
      hide Total;
      var i, rest := Without(ns, ms[0]);
      WithoutFirst(ms);
      TotalOfPermutation(ms[1..], rest);
    }
  }

  lemma Without(ns: seq<Member>, m: Member) returns (i: nat, rest: seq<Member>)
    requires m in multiset(ns)
    ensures i < |ns| && rest == ns[..i] + ns[i + 1..]
    ensures multiset(rest) == multiset(ns) - multiset{m} && Total(ns) == m.size + Total(rest)
  {
    i :| 0 <= i < |ns| && ns[i] == m;
    rest := ns[..i] + ns[i + 1..];
    WithoutOne(ns, i);
    TotalOfInsert(ns[..i], m, ns[i + 1..]);
    assert ns == ns[..i] + [ns[i]] + ns[i + 1..];
  }

  /** The same condition said of the collection alone. */
  ghost predicate TreeOf(ms: multiset<Member>) {
    && (forall m :: m in ms ==> Plain(m) && ms[m] == 1)
    && (forall a, b :: a in ms && b in ms && a != b ==> Compatible(a, b))
  }

  lemma TreeIffTreeOf(ms: seq<Member>)
    ensures Tree(ms) <==> TreeOf(multiset(ms))
  {
    hide Tree, TreeOf;
    if Tree(ms) {
      TreeToTreeOf(ms);
    }
    if TreeOf(multiset(ms)) {
      TreeOfToTree(ms);
    }
  }

  lemma TreeToTreeOf(ms: seq<Member>)
    requires Tree(ms)
    ensures TreeOf(multiset(ms))
  {
    Distinct(ms);
    hide Plain, Compatible;
    forall a, b | a in multiset(ms) && b in multiset(ms) && a != b
      ensures Compatible(a, b)
    {
      var i :| 0 <= i < |ms| && ms[i] == a;
      var j :| 0 <= j < |ms| && ms[j] == b;
      if i < j {
        assert Compatible(ms[i], ms[j]);
      } else {
        CompatibleBothWays(ms[j], ms[i]);
      }
    }
  }

  lemma CompatibleBothWays(a: Member, b: Member)
    ensures Compatible(a, b) <==> Compatible(b, a)
  {
    hide Parts;
  }

  lemma TreeOfToTree(ms: seq<Member>)
    requires TreeOf(multiset(ms))
    ensures Tree(ms)
  {
    hide Plain, Compatible;
    forall i, j | 0 <= i < j < |ms|
      ensures Compatible(ms[i], ms[j])
    {
      assert ms[i] in multiset(ms) && ms[j] in multiset(ms);
      if ms[i] == ms[j] {
        TwiceInThere(ms, i, j);
      }
    }
  }

  lemma TwiceInThere(ms: seq<Member>, i: nat, j: nat)
    requires i < j < |ms| && ms[i] == ms[j]
    ensures multiset(ms)[ms[i]] >= 2
  {
    assert ms == ms[..j] + ms[j..];
    assert ms[..j][i] == ms[i] && ms[j..][0] == ms[j];
    assert ms[i] in multiset(ms[..j]) && ms[i] in multiset(ms[j..]);
  }

  lemma {:induction false} Distinct(ms: seq<Member>)
    requires Tree(ms)
    ensures forall m :: m in multiset(ms) ==> multiset(ms)[m] == 1
  {
    hide Plain, Parts;
    if ms == [] {
    } else {
      var last := |ms| - 1;
      Distinct(ms[..last]);
      assert ms == ms[..last] + [ms[last]];
      forall i | 0 <= i < last
        ensures ms[i] != ms[last]
      {
        assert Compatible(ms[i], ms[last]);
      }
      assert ms[last] !in multiset(ms[..last]);
    }
  }

  /** Whatever order the archive lists its members in, the verdict is the same. */
  lemma OrderIndependent(ms: seq<Member>, ns: seq<Member>, limit: nat, bytesLimit: nat)
    requires multiset(ms) == multiset(ns)
    ensures Acceptable(ms, limit, bytesLimit) <==> Acceptable(ns, limit, bytesLimit)
  {
    TotalOfPermutation(ms, ns);
    TreeIffTreeOf(ms);
    TreeIffTreeOf(ns);
  }

  // ---- The loop ----

  /** `seen` holds exactly the normalised names of the members so far, with their kinds. */
  ghost predicate Recorded(seen: map<string, Kind>, ms: seq<Member>) {
    && (forall i :: 0 <= i < |ms| ==> Parts(ms[i].name) != [] && Holds(seen, Normalized(ms[i].name), ms[i].kind))
    && (forall name :: name in seen ==> exists i :: 0 <= i < |ms| && name == Normalized(ms[i].name))
  }

  predicate Holds(seen: map<string, Kind>, name: string, kind: Kind) {
    name in seen && seen[name] == kind
  }

  /** Some strict ancestor is a file. */
  predicate BelowFile(seen: map<string, Kind>, name: string) {
    exists k :: 1 <= k < |Parts(name)| && Holds(seen, Parent(name, k), File)
  }

  predicate HasBelow(seen: map<string, Kind>, normalized: string) {
    exists name :: name in seen && normalized + "/" <= name
  }

  predicate Clashes(seen: map<string, Kind>, m: Member) {
    Normalized(m.name) in seen || BelowFile(seen, m.name) || (m.kind.File? && HasBelow(seen, Normalized(m.name)))
  }

  /** The three tests against what has been seen decide compatibility with every earlier member. */
  lemma NoClashIsCompatible(seen: map<string, Kind>, ms: seq<Member>, m: Member, i: nat)
    requires Recorded(seen, ms) && Parts(m.name) != [] && !Clashes(seen, m) && i < |ms|
    ensures Compatible(ms[i], m)
  {
    hide Parts, Join, Normalized, Parent;
    var a := ms[i];
    assert Holds(seen, Normalized(a.name), a.kind);
    SameName(a.name, m.name);
    SameName(m.name, a.name);
    if Parts(a.name) < Parts(m.name) {
      var k := |Parts(a.name)|;
      ParentIsPrefix(a.name, m.name, k);
      assert Parent(m.name, k) == Normalized(a.name);
    }
  }

  lemma ClashIsIncompatible(seen: map<string, Kind>, ms: seq<Member>, m: Member) returns (i: nat)
    requires Recorded(seen, ms) && Parts(m.name) != [] && Clashes(seen, m)
    ensures i < |ms| && !Compatible(ms[i], m)
  {
    hide Parts, Join, Normalized, Parent;
    if Normalized(m.name) in seen {
      i :| 0 <= i < |ms| && Normalized(m.name) == Normalized(ms[i].name);
      SameName(ms[i].name, m.name);
    } else if BelowFile(seen, m.name) {
      var k :| 1 <= k < |Parts(m.name)| && Holds(seen, Parent(m.name, k), File);
      i :| 0 <= i < |ms| && Parent(m.name, k) == Normalized(ms[i].name);
      ParentIsPrefix(ms[i].name, m.name, k);
      assert Holds(seen, Normalized(ms[i].name), ms[i].kind);
    } else {
      var name :| name in seen && Normalized(m.name) + "/" <= name;
      i :| 0 <= i < |ms| && name == Normalized(ms[i].name);
      SameName(m.name, ms[i].name);
    }
  }

  lemma RecordedStep(seen: map<string, Kind>, ms: seq<Member>, m: Member)
    requires Recorded(seen, ms) && Parts(m.name) != [] && Normalized(m.name) !in seen
    ensures Recorded(seen[Normalized(m.name) := m.kind], ms + [m])
  {
    hide Parts, Normalized;
    var after, all := seen[Normalized(m.name) := m.kind], ms + [m];
    forall i | 0 <= i < |all|
      ensures Parts(all[i].name) != [] && Holds(after, Normalized(all[i].name), all[i].kind)
    {
      assert i < |ms| ==> all[i] == ms[i] && Holds(seen, Normalized(ms[i].name), ms[i].kind);
    }
    forall name | name in after
      ensures exists i :: 0 <= i < |all| && name == Normalized(all[i].name)
    {
      if name in seen {
        var i :| 0 <= i < |ms| && name == Normalized(ms[i].name);
        assert all[i] == ms[i];
      } else {
        assert all[|ms|] == m;
      }
    }
  }

  lemma TreeStep(ms: seq<Member>, m: Member)
    requires Tree(ms)
    ensures Tree(ms + [m]) <==> Plain(m) && forall i :: 0 <= i < |ms| ==> Compatible(ms[i], m)
  {
    hide Plain, Compatible;
    var all := ms + [m];
    assert forall i :: 0 <= i < |ms| ==> all[i] == ms[i];
    if Tree(all) {
      assert Plain(all[|ms|]) && forall i :: 0 <= i < |ms| ==> Compatible(all[i], all[|ms|]);
    }
  }

  lemma TreePrefix(ms: seq<Member>, k: nat)
    requires k <= |ms| && Tree(ms)
    ensures Tree(ms[..k])
  {
    hide Plain, Compatible;
  }

  lemma {:induction false} TotalOfPrefix(ms: seq<Member>, k: nat)
    requires k < |ms|
    ensures Total(ms[..k + 1]) == Total(ms[..k]) + ms[k].size
  {
    TotalOfInsert(ms[..k], ms[k], []);
    assert ms[..k + 1] == ms[..k] + [ms[k]] + [] && ms[..k] + [] == ms[..k];
  }

  /** True exactly when the list is acceptable; the source raises where this returns false. */
  method SafeArchiveMembers(members: seq<Member>, limit: nat, bytesLimit: nat) returns (safe: bool)
    ensures safe <==> Acceptable(members, limit, bytesLimit)
  {
    hide Plain, Compatible, Recorded, Clashes, Tree, Normalized;
    if |members| > limit {
      return false;
    }
    var seen: map<string, Kind> := map[];
    var total := 0;
    Nothing(members[..0]);
    for k := 0 to |members|
      invariant Recorded(seen, members[..k]) && Tree(members[..k]) && total == Total(members[..k])
    {
      var m := members[k];
      assert members[..k] + [m] == members[..k + 1];
      TreeStep(members[..k], m);
      if !Plain(m) || Clashes(seen, m) {
        if Tree(members) {
          TreePrefix(members, k + 1);
          PlainHasParts(m);
          var i := ClashIsIncompatible(seen, members[..k], m);
          assert false;
        }
        return false;
      }
      PlainHasParts(m);
      forall i | 0 <= i < k
        ensures Compatible(members[..k][i], m)
      {
        NoClashIsCompatible(seen, members[..k], m, i);
      }
      assert Normalized(m.name) !in seen by { NoClashIsNew(seen, m); }
      RecordedStep(seen, members[..k], m);
      TotalOfPrefix(members, k);
      seen := seen[Normalized(m.name) := m.kind];
      total := total + m.size;
    }
    assert members[..|members|] == members;
    safe := total <= bytesLimit;
  }

  lemma Nothing(none: seq<Member>)
    requires none == []
    ensures Recorded(map[], none) && Tree(none) && Total(none) == 0
  {
  }

  lemma NoClashIsNew(seen: map<string, Kind>, m: Member)
    requires !Clashes(seen, m)
    ensures Normalized(m.name) !in seen
  {
  }

  lemma PlainHasParts(m: Member)
    requires Plain(m)
    ensures Parts(m.name) != []
  {
  }
}
