/**
 * CreatePermissionSeeder: for each of four labels, one permission group and
 * its two permissions, `<slug>.read` and `<slug>.write`. Each label runs in
 * its own transaction; an exception rolls back that label's rows and ends
 * the run, so the labels before it stay seeded.
 */
module PermissionSeeder {
  import opened Common
  import opened AccessModel

  function Labels(): seq<string> {
    ["User", "Role", "Permission", "Patient"]
  }

  const Guard := "web"

  /** `str_replace(' ', '_', s)`. */
  function ReplaceSpaces(s: string): (r: string)
    ensures |r| == |s|
    ensures forall i :: 0 <= i < |s| ==> r[i] == if s[i] == ' ' then '_' else s[i]
  {
    if s == [] then [] else [if s[0] == ' ' then '_' else s[0]] + ReplaceSpaces(s[1..])
  }

  /** `strtolower(str_replace(' ', '_', text))`: a text with no dot gives a slug with no dot. */
  function Slug(text: string): (r: string)
    ensures |r| == |text|
    ensures '.' !in text ==> '.' !in r
  {
    var r := AsciiLower(ReplaceSpaces(text));
    assert forall i :: 0 <= i < |r| ==> (r[i] == '.' ==> text[i] == '.');
    r
  }

  /** The suffix of the permission at position `k` of a group's pair. */
  function Suffix(k: nat): string {
    if k % 2 == 0 then "read" else "write"
  }

  function PermissionName(text: string, suffix: string): string {
    Slug(text) + "." + suffix
  }

  /** The position of the first '.' in `s`. */
  function DotIndex(s: string): (r: Option<nat>)
    ensures r.Some? ==> r.value < |s| && s[r.value] == '.' && '.' !in s[..r.value]
    ensures r.None? ==> '.' !in s
  {
    if s == [] then None
    else if s[0] == '.' then Some(0)
    else match DotIndex(s[1..])
      case None => None
      case Some(k) =>
        assert s[..k + 1] == [s[0]] + s[1..][..k];
        Some(k + 1)
  }

  /**
   * JavaScript's `s.split('.')[1]`: the text between the first dot and the
   * next one (or the end), and `undefined` (None) when there is no dot.
   */
  function SecondSegment(s: string): (r: Option<string>)
    ensures r.None? <==> '.' !in s
  {
    match DotIndex(s)
    case None => None
    case Some(k) =>
      var rest := s[k + 1..];
      match DotIndex(rest)
      case None => Some(rest)
      case Some(m) => Some(rest[..m])
  }

  /** The text before the first dot, the whole string without one. */
  function FirstSegment(s: string): (r: string)
    ensures '.' !in r
  {
    match DotIndex(s)
    case None => s
    case Some(k) => s[..k]
  }

  /** A dot-free slug and suffix split back into themselves. */
  lemma {:induction false} NameSegments(slug: string, suffix: string)
    requires '.' !in slug && '.' !in suffix
    ensures FirstSegment(slug + "." + suffix) == slug
    ensures SecondSegment(slug + "." + suffix) == Some(suffix)
  {
    var s := slug + "." + suffix;
    FirstDot(slug, suffix);
    assert s[..|slug|] == slug;
    assert s[|slug| + 1..] == suffix;
  }

  /** In `slug.rest` with a dot-free slug, the first dot is the one after the slug. */
  lemma {:induction false} FirstDot(slug: string, rest: string)
    requires '.' !in slug
    ensures DotIndex(slug + "." + rest) == Some(|slug|)
  {
    var s := slug + "." + rest;
    if slug != [] {
      FirstDot(slug[1..], rest);
      assert s[1..] == slug[1..] + "." + rest;
      assert s[0] == slug[0];
    }
  }

  /** The label the role edit page shows under a seeded permission is the permission's suffix. */
  lemma {:induction false} DisplayedLabel(text: string, suffix: string)
    requires '.' !in text && '.' !in suffix
    ensures SecondSegment(PermissionName(text, suffix)) == Some(suffix)
  {
    NameSegments(Slug(text), suffix);
  }

  /** Which labels' transactions complete: all of them, or those before the one that throws. */
  function Completed(count: nat, failAt: Option<nat>): (n: nat)
    ensures n <= count
    ensures failAt.Some? && failAt.value < count ==> n == failAt.value
    ensures !(failAt.Some? && failAt.value < count) ==> n == count
  {
    if failAt.Some? && failAt.value < count then failAt.value else count
  }

  /** The groups the first `n` labels create, given the first group id. */
  function SeededGroups(labels: seq<string>, firstGroup: nat, n: nat): (gs: seq<PermissionGroup>)
    requires n <= |labels|
    ensures |gs| == n
    ensures forall i :: 0 <= i < n ==> gs[i] == PermissionGroup(firstGroup + i, labels[i], Guard, None)
  {
    if n == 0 then []
    else SeededGroups(labels, firstGroup, n - 1) + [PermissionGroup(firstGroup + n - 1, labels[n - 1], Guard, None)]
  }

  /** The permissions the first `n` labels create: read, then write, for each label in turn. */
  function SeededPermissions(labels: seq<string>, firstGroup: nat, firstPermission: nat, n: nat)
    : (ps: seq<Permission>)
    requires n <= |labels|
    ensures |ps| == 2 * n
  {
    if n == 0 then []
    else
      SeededPermissions(labels, firstGroup, firstPermission, n - 1) +
      [Permission(firstPermission + 2 * (n - 1), PermissionName(labels[n - 1], "read"), Guard, firstGroup + n - 1),
       Permission(firstPermission + 2 * (n - 1) + 1, PermissionName(labels[n - 1], "write"), Guard, firstGroup + n - 1)]
  }

  /** The `k`-th seeded permission: the next id, the label `k / 2`, read for even `k`, write for odd. */
  lemma {:induction false} SeededPermissionAt(labels: seq<string>, firstGroup: nat, firstPermission: nat, n: nat, k: nat)
    requires n <= |labels| && k < 2 * n
    ensures SeededPermissions(labels, firstGroup, firstPermission, n)[k] ==
      Permission(firstPermission + k, PermissionName(labels[k / 2], Suffix(k)), Guard, firstGroup + k / 2)
  {
    if k < 2 * (n - 1) {
      SeededPermissionAt(labels, firstGroup, firstPermission, n - 1, k);
    } else {
      assert k / 2 == n - 1;
      assert k == 2 * (n - 1) ==> Suffix(k) == "read";
      assert k == 2 * (n - 1) + 1 ==> Suffix(k) == "write";
    }
  }

  /** Every seeded group owns exactly two seeded permissions: its read one and its write one. */
  lemma {:induction false} TwoPermissionsPerGroup(labels: seq<string>, firstGroup: nat, firstPermission: nat, n: nat, i: nat)
    requires n <= |labels| && i < n
    ensures var gs := SeededGroups(labels, firstGroup, n); var ps := SeededPermissions(labels, firstGroup, firstPermission, n);
      forall k :: 0 <= k < |ps| ==> (ps[k].groupId == gs[i].id <==> k == 2 * i || k == 2 * i + 1)
    ensures var ps := SeededPermissions(labels, firstGroup, firstPermission, n);
      ps[2 * i].name == PermissionName(labels[i], "read") && ps[2 * i + 1].name == PermissionName(labels[i], "write")
  {
    var ps := SeededPermissions(labels, firstGroup, firstPermission, n);
    forall k | 0 <= k < |ps| ensures ps[k].groupId == firstGroup + i <==> k == 2 * i || k == 2 * i + 1 {
      SeededPermissionAt(labels, firstGroup, firstPermission, n, k);
    }
    SeededPermissionAt(labels, firstGroup, firstPermission, n, 2 * i);
    SeededPermissionAt(labels, firstGroup, firstPermission, n, 2 * i + 1);
    assert (2 * i + 1) / 2 == i && (2 * i) / 2 == i;
  }

  /** Labels with no dot and pairwise distinct slugs. */
  ghost predicate DistinctSlugs(labels: seq<string>) {
    (forall i :: 0 <= i < |labels| ==> '.' !in labels[i]) &&
    (forall i, j :: 0 <= i < j < |labels| ==> Slug(labels[i]) != Slug(labels[j]))
  }

  /**
   * Labels that pairwise differ in length, or whose capitalised first letters
   * differ, have distinct slugs.
   */
  ghost predicate DistinctShapes(labels: seq<string>) {
    forall i, j :: 0 <= i < j < |labels| ==>
      |labels[i]| != |labels[j]| ||
      (|labels[i]| > 0 && |labels[j]| > 0 && IsAsciiUpper(labels[i][0]) && IsAsciiUpper(labels[j][0]) &&
       labels[i][0] != labels[j][0])
  }

  lemma {:induction false} ShapesGiveDistinctSlugs(labels: seq<string>)
    requires forall i :: 0 <= i < |labels| ==> '.' !in labels[i]
    requires DistinctShapes(labels)
    ensures DistinctSlugs(labels)
  {
    forall i, j | 0 <= i < j < |labels| ensures Slug(labels[i]) != Slug(labels[j]) {
      if |labels[i]| == |labels[j]| {
        SlugHead(labels[i]);
        SlugHead(labels[j]);
      }
    }
  }

  /** The first character of a slug is the label's first character, lowered. */
  lemma SlugHead(text: string)
    requires |text| > 0 && IsAsciiUpper(text[0])
    ensures Slug(text)[0] == (text[0] as int + 32) as char
  {
  }

  /** The seeder's labels have no dots, and differ in length or in their capitalised first letter. */
  lemma LabelShapes()
    ensures forall i :: 0 <= i < |Labels()| ==> '.' !in Labels()[i]
    ensures DistinctShapes(Labels())
  {
    var ls := Labels();
    assert '.' !in ls[0] && '.' !in ls[1] && '.' !in ls[2] && '.' !in ls[3];
    assert |ls[0]| == 4 && |ls[1]| == 4 && |ls[2]| == 10 && |ls[3]| == 7;
    assert ls[0][0] == 'U' && ls[1][0] == 'R';
  }

  /** The seeder's labels give four distinct slugs. */
  lemma LabelsHaveDistinctSlugs()
    ensures DistinctSlugs(Labels())
  {
    LabelShapes();
    ShapesGiveDistinctSlugs(Labels());
  }

  /** Over such labels, no two (label, suffix) pairs give the same permission name. */
  lemma {:induction false} NamesDistinct(labels: seq<string>, i: nat, j: nat, s: string, t: string)
    requires DistinctSlugs(labels) && i < |labels| && j < |labels|
    requires '.' !in s && '.' !in t
    requires i != j || s != t
    ensures PermissionName(labels[i], s) != PermissionName(labels[j], t)
  {
    NameSegments(Slug(labels[i]), s);
    NameSegments(Slug(labels[j]), t);
    if i > j {
      assert Slug(labels[j]) != Slug(labels[i]);
    }
  }

  /** Over labels with distinct slugs, the seeded permission names are pairwise distinct. */
  lemma {:induction false} SeededNamesDistinct(labels: seq<string>, firstGroup: nat, firstPermission: nat)
    requires DistinctSlugs(labels)
    ensures var ps := SeededPermissions(labels, firstGroup, firstPermission, |labels|);
      forall k, l :: 0 <= k < l < |ps| ==> ps[k].name != ps[l].name
  {
    var ps := SeededPermissions(labels, firstGroup, firstPermission, |labels|);
    forall k, l | 0 <= k < l < |ps| ensures ps[k].name != ps[l].name {
      SeededPermissionAt(labels, firstGroup, firstPermission, |labels|, k);
      SeededPermissionAt(labels, firstGroup, firstPermission, |labels|, l);
      SuffixesDiffer(k, l);
      NamesDistinct(labels, k / 2, l / 2, Suffix(k), Suffix(l));
    }
  }

  /** Two different positions have different labels or different suffixes; suffixes have no dot. */
  lemma SuffixesDiffer(k: nat, l: nat)
    requires k != l
    ensures k / 2 != l / 2 || Suffix(k) != Suffix(l)
    ensures '.' !in Suffix(k) && '.' !in Suffix(l)
  {
    if k / 2 == l / 2 {
      assert k % 2 != l % 2;
    }
  }

  /** The eight permissions `run` seeds have pairwise distinct names. */
  lemma RunNamesDistinct(firstGroup: nat, firstPermission: nat)
    ensures var ps := SeededPermissions(Labels(), firstGroup, firstPermission, |Labels()|);
      forall k, l :: 0 <= k < l < |ps| ==> ps[k].name != ps[l].name
  {
    LabelsHaveDistinctSlugs();
    SeededNamesDistinct(Labels(), firstGroup, firstPermission);
  }

  /**
   * The loop of `run` over a list of labels: each label, in order, creates its
   * group (the label as name, guard `web`, no description) and then the
   * group's read and write permissions, all three with the next ids.
   * `failAt` is the label whose transaction throws, if any.
   */
  method SeedAll(db: AccessTables, labels: seq<string>, failAt: Option<nat>)
    requires db.Valid()
    modifies db`groups, db`permissions, db`nextGroupId, db`nextPermissionId
    ensures db.Valid()
    ensures var n := Completed(|labels|, failAt);
      db.groups == old(db.groups) + SeededGroups(labels, old(db.nextGroupId), n) &&
      db.permissions == old(db.permissions) + SeededPermissions(labels, old(db.nextGroupId), old(db.nextPermissionId), n) &&
      db.nextGroupId == old(db.nextGroupId) + n && db.nextPermissionId == old(db.nextPermissionId) + 2 * n
  {
    ghost var groups0, permissions0 := db.groups, db.permissions;
    ghost var g0, p0 := db.nextGroupId, db.nextPermissionId;
    var n := Completed(|labels|, failAt);
    var i := 0;
    while i < n
      invariant 0 <= i <= n
      invariant db.Valid()
      invariant db.nextGroupId == g0 + i && db.nextPermissionId == p0 + 2 * i
      invariant db.groups == groups0 + SeededGroups(labels, g0, i)
      invariant db.permissions == permissions0 + SeededPermissions(labels, g0, p0, i)
    {
      SeedNext(db, labels, i, groups0, permissions0, g0, p0);
      i := i + 1;
    }
  }

  /** One turn of the loop of `run`: the `i`-th label extends the rows seeded so far. */
  method SeedNext(db: AccessTables, labels: seq<string>, i: nat,
                  ghost groups0: seq<PermissionGroup>, ghost permissions0: seq<Permission>, ghost g0: nat, ghost p0: nat)
    requires db.Valid() && i < |labels|
    requires db.nextGroupId == g0 + i && db.nextPermissionId == p0 + 2 * i
    requires db.groups == groups0 + SeededGroups(labels, g0, i)
    requires db.permissions == permissions0 + SeededPermissions(labels, g0, p0, i)
    modifies db`groups, db`permissions, db`nextGroupId, db`nextPermissionId
    ensures db.Valid()
    ensures db.nextGroupId == g0 + (i + 1) && db.nextPermissionId == p0 + 2 * (i + 1)
    ensures db.groups == groups0 + SeededGroups(labels, g0, i + 1)
    ensures db.permissions == permissions0 + SeededPermissions(labels, g0, p0, i + 1)
  {
    ghost var gs, ps := SeededGroups(labels, g0, i), SeededPermissions(labels, g0, p0, i);
    SeedStep(labels, g0, p0, i);
    SeedLabel(db, labels[i]);
    AppendAssoc(groups0, gs, [PermissionGroup(g0 + i, labels[i], Guard, None)]);
    AppendAssoc(permissions0, ps,
      [Permission(p0 + 2 * i, PermissionName(labels[i], "read"), Guard, g0 + i),
       Permission(p0 + 2 * i + 1, PermissionName(labels[i], "write"), Guard, g0 + i)]);
  }

  /** The `i`-th label adds its group and then its read and write permissions to the seeded rows. */
  lemma SeedStep(labels: seq<string>, firstGroup: nat, firstPermission: nat, i: nat)
    requires i < |labels|
    ensures SeededGroups(labels, firstGroup, i + 1) ==
      SeededGroups(labels, firstGroup, i) + [PermissionGroup(firstGroup + i, labels[i], Guard, None)]
    ensures SeededPermissions(labels, firstGroup, firstPermission, i + 1) ==
      SeededPermissions(labels, firstGroup, firstPermission, i) +
      [Permission(firstPermission + 2 * i, PermissionName(labels[i], "read"), Guard, firstGroup + i),
       Permission(firstPermission + 2 * i + 1, PermissionName(labels[i], "write"), Guard, firstGroup + i)]
  {
  }

  lemma AppendAssoc<T>(a: seq<T>, b: seq<T>, c: seq<T>)
    ensures a + (b + c) == (a + b) + c
  {
  }

  /** One label's transaction: its group, then the group's read and write permissions, with the next ids. */
  method SeedLabel(db: AccessTables, text: string)
    requires db.Valid()
    modifies db`groups, db`permissions, db`nextGroupId, db`nextPermissionId
    ensures db.Valid()
    ensures db.groups == old(db.groups) + [PermissionGroup(old(db.nextGroupId), text, Guard, None)]
    ensures db.permissions == old(db.permissions) +
      [Permission(old(db.nextPermissionId), PermissionName(text, "read"), Guard, old(db.nextGroupId)),
       Permission(old(db.nextPermissionId) + 1, PermissionName(text, "write"), Guard, old(db.nextGroupId))]
    ensures db.nextGroupId == old(db.nextGroupId) + 1 && db.nextPermissionId == old(db.nextPermissionId) + 2
  {
    var groupId := AddGroup(db, text);
    AddPermission(db, PermissionName(text, "read"), groupId);
    AddPermission(db, PermissionName(text, "write"), groupId);
  }

  /** `PermissionGroup::create`: a group with the next group id. */
  method AddGroup(db: AccessTables, text: string) returns (id: nat)
    requires db.Valid()
    modifies db`groups, db`nextGroupId
    ensures db.Valid()
    ensures id == old(db.nextGroupId)
    ensures db.groups == old(db.groups) + [PermissionGroup(id, text, Guard, None)]
    ensures db.nextGroupId == id + 1
  {
    id := db.nextGroupId;
    KeysBelowAppend(db.groups, GroupId, id, PermissionGroup(id, text, Guard, None));
    db.groups := db.groups + [PermissionGroup(id, text, Guard, None)];
    db.nextGroupId := id + 1;
  }

  /** `Permission::create`: a permission of the group with the next permission id. */
  method AddPermission(db: AccessTables, name: string, groupId: nat)
    requires db.Valid()
    modifies db`permissions, db`nextPermissionId
    ensures db.Valid()
    ensures db.permissions == old(db.permissions) + [Permission(old(db.nextPermissionId), name, Guard, groupId)]
    ensures db.nextPermissionId == old(db.nextPermissionId) + 1
  {
    var p := Permission(db.nextPermissionId, name, Guard, groupId);
    KeysBelowAppend(db.permissions, PermissionId, db.nextPermissionId, p);
    db.permissions := db.permissions + [p];
    db.nextPermissionId := db.nextPermissionId + 1;
  }

  /** `run`: the loop over the four labels. */
  method Run(db: AccessTables, failAt: Option<nat>)
    requires db.Valid()
    modifies db`groups, db`permissions, db`nextGroupId, db`nextPermissionId
    ensures db.Valid()
    ensures var n := Completed(|Labels()|, failAt);
      db.groups == old(db.groups) + SeededGroups(Labels(), old(db.nextGroupId), n) &&
      db.permissions == old(db.permissions) + SeededPermissions(Labels(), old(db.nextGroupId), old(db.nextPermissionId), n) &&
      db.nextGroupId == old(db.nextGroupId) + n && db.nextPermissionId == old(db.nextPermissionId) + 2 * n
  {
    SeedAll(db, Labels(), failAt);
  }
}
