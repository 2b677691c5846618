/**
 * The validation predicates the services evaluate before writing: e-mail and
 * name uniqueness, and the checks of volunteer registration.
 */
module Checks {
  import opened Wrappers
  import opened Entities
  import Text

  predicate EmailTaken(users: map<int, User>, email: string) {
    exists u :: u in users && users[u].email == email
  }

  /** No two users share an e-mail. */
  ghost predicate UniqueEmails(users: map<int, User>) {
    forall a, b :: a in users && b in users && users[a].email == users[b].email ==> a == b
  }

  /** A user whose e-mail is not taken, added under a fresh key, keeps e-mails unique. */
  lemma AddUserKeepsEmailsUnique(users: map<int, User>, k: int, u: User)
    requires k !in users && !EmailTaken(users, u.email)
    ensures UniqueEmails(users) ==> UniqueEmails(users[k := u])
  {
  }

  /** Registration's role default: an empty role becomes User, any other is kept. */
  function WithDefaultRole(u: User): (r: User)
    ensures r.role != ""
    ensures r == u.(role := r.role)
    ensures u.role != "" ==> r.role == u.role
  {
    if u.role == "" then u.(role := RoleUser) else u
  }

  /** A center other than `exclude` whose lower-cased name equals the lower-cased `name` (no trimming). */
  predicate CenterNameTaken(centers: map<int, ReliefCenter>, name: string, exclude: Option<int>) {
    exists c :: c in centers && exclude != Some(c) && Text.Lower(centers[c].name) == Text.Lower(name)
  }

  /** ExistsByNameAsync: a skill other than `exclude` whose trimmed, lower-cased name equals the argument's. */
  predicate SkillNameExists(skills: map<int, Skill>, name: string, exclude: Option<int>) {
    exists s :: s in skills && exclude != Some(s) && Text.Normalize(skills[s].name) == Text.Normalize(name)
  }

  /** Excluding an id is the same as checking the table without that skill. */
  lemma SkillNameExcludeIsRemoval(skills: map<int, Skill>, name: string, id: int)
    ensures SkillNameExists(skills, name, Some(id)) == SkillNameExists(skills - {id}, name, None)
  {
    if SkillNameExists(skills, name, Some(id)) {
      var s :| s in skills && Some(id) != Some(s) && Text.Normalize(skills[s].name) == Text.Normalize(name);
      assert s in skills - {id};
    }
  }

  /** Checking an already normalised name gives the same answer as checking the raw one. */
  lemma SkillNameCheckNormalises(skills: map<int, Skill>, name: string, exclude: Option<int>)
    ensures SkillNameExists(skills, Text.Normalize(name), exclude) == SkillNameExists(skills, name, exclude)
  {
    Text.NormalizeIdempotent(name);
  }

  /** Every stored skill name collides with itself once padded and re-cased. */
  lemma SkillNameFindsItself(skills: map<int, Skill>, id: int)
    requires id in skills
    ensures SkillNameExists(skills, Text.Normalize(skills[id].name), None)
  {
    Text.NormalizeIdempotent(skills[id].name);
  }

  /** The position of the first occurrence of `x` in `xs`. */
  function FirstIndex(xs: seq<int>, x: int): (i: nat)
    requires x in xs
    ensures i < |xs| && xs[i] == x && x !in xs[..i]
  {
    if xs[0] == x then 0 else 1 + FirstIndex(xs[1..], x)
  }

  /** An element of a prefix has the same first occurrence in the whole sequence. */
  lemma FirstIndexInPrefix(xs: seq<int>, n: nat, x: int)
    requires n <= |xs| && x in xs[..n]
    ensures FirstIndex(xs, x) == FirstIndex(xs[..n], x)
  {
    var j := FirstIndex(xs[..n], x);
    assert xs[..n][..j] == xs[..j];
  }

  /**
   * `Distinct()`: the elements of `xs`, each once, in the order of their
   * first occurrence.
   */
  function Distinct(xs: seq<int>): (r: seq<int>)
    ensures forall x :: x in r <==> x in xs
    ensures forall i, j :: 0 <= i < j < |r| ==> r[i] != r[j]
    ensures forall i, j :: 0 <= i < j < |r| ==> FirstIndex(xs, r[i]) < FirstIndex(xs, r[j])
    ensures |r| <= |xs|
    decreases |xs|
  {
    if xs == [] then []
    else
      var init := xs[..|xs| - 1];
      var d := Distinct(init);
      var last := xs[|xs| - 1];
      assert xs == init + [last];
      assert forall i :: 0 <= i < |d| ==> FirstIndex(xs, d[i]) == FirstIndex(init, d[i]) by {
        forall i | 0 <= i < |d| {
          FirstIndexInPrefix(xs, |xs| - 1, d[i]);
        }
      }
      if last in d then d
      else
        assert FirstIndex(xs, last) == |xs| - 1;
        d + [last]
  }

  /** The volunteer-skill pairs of registration, one per id of `ids`, in order. */
  method SkillPairs(vid: int, ids: seq<int>) returns (pairs: seq<VolunteerSkill>)
    ensures |pairs| == |ids|
    ensures forall i :: 0 <= i < |ids| ==> pairs[i] == VolunteerSkill(vid, ids[i])
  {
    pairs := [];
    var i := 0;
    while i < |ids|
      invariant 0 <= i <= |ids| && |pairs| == i
      invariant forall j :: 0 <= j < i ==> pairs[j] == VolunteerSkill(vid, ids[j])
    {
      pairs := pairs + [VolunteerSkill(vid, ids[i])];
      i := i + 1;
    }
  }

  /** The first id of `ids` that names no skill. */
  function FirstMissingSkill(ids: seq<int>, skills: map<int, Skill>): (r: Option<int>)
    ensures r.None? <==> forall i :: 0 <= i < |ids| ==> ids[i] in skills
    ensures r.Some? ==> r.value in ids && r.value !in skills
    ensures r.Some? ==> forall j :: 0 <= j < FirstIndex(ids, r.value) ==> ids[j] in skills
    decreases |ids|
  {
    if ids == [] then None
    else if ids[0] !in skills then Some(ids[0])
    else FirstMissingSkill(ids[1..], skills)
  }

  /**
   * The first missing id of the distinct ids is the first missing id of the
   * ids themselves: every id met before it names a skill.
   */
  lemma DistinctKeepsFirstMissing(xs: seq<int>, skills: map<int, Skill>, s: int)
    requires s in xs
    requires forall m :: 0 <= m < FirstIndex(Distinct(xs), s) ==> Distinct(xs)[m] in skills
    ensures forall j :: 0 <= j < FirstIndex(xs, s) ==> xs[j] in skills
  {
    var d := Distinct(xs);
    var q := FirstIndex(d, s);
    forall j | 0 <= j < FirstIndex(xs, s)
      ensures xs[j] in skills
    {
      var x := xs[j];
      assert x in xs[..j + 1];
      var m := FirstIndex(d, x);
      assert FirstIndex(xs, d[m]) <= j < FirstIndex(xs, d[q]);
      assert m < q;
    }
  }

  /**
   * Everything RegisterVolunteerAsync checks before its first write, in order:
   * some skill exists, the center exists, the e-mail is free, every distinct
   * requested skill exists.
   */
  function CheckRegistration(skills: map<int, Skill>, centers: map<int, ReliefCenter>, users: map<int, User>,
                             email: string, center: int, skillIds: seq<int>): (r: Outcome<Error>)
    ensures r.Pass? <==>
      && |skills| > 0
      && center in centers
      && !EmailTaken(users, email)
      && (forall s :: s in skillIds ==> s in skills)
    ensures |skills| == 0 ==> r == Fail(NoSkillsDefined)
    ensures |skills| > 0 && center !in centers ==> r == Fail(CenterNotFound)
    ensures |skills| > 0 && center in centers && EmailTaken(users, email) ==> r == Fail(EmailExists)
    ensures |skills| > 0 && center in centers && !EmailTaken(users, email) && r.Fail? ==> r.error.SkillNotFound?
    ensures r.Fail? && r.error.SkillNotFound? ==>
      var s := r.error.skillId;
      && s in skillIds && s !in skills
      && forall j :: 0 <= j < FirstIndex(skillIds, s) ==> skillIds[j] in skills
  {
    if |skills| == 0 then Fail(NoSkillsDefined)
    else if center !in centers then Fail(CenterNotFound)
    else if EmailTaken(users, email) then Fail(EmailExists)
    else
      match FirstMissingSkill(Distinct(skillIds), skills)
      case Some(s) =>
        DistinctKeepsFirstMissing(skillIds, skills, s);
        Fail(SkillNotFound(s))
      case None =>
        assert forall s :: s in skillIds ==> s in Distinct(skillIds);
        Pass
  }
}
