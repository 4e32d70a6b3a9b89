/** Permissions and the lists of them that requests carry and groups hold. */
module Permissions {
  import opened Common

  /** A permission name as text decodes to one of the four known ones or to anything else. */
  datatype Perm = Download | Audit | Users | Groups | Unknown(text: string)

  const VALID_PERMS: seq<Perm> := [Download, Audit, Users, Groups]

  predicate IsValid(p: Perm) {
    p in VALID_PERMS
  }

  ghost predicate NoDuplicates<T>(s: seq<T>) {
    forall i, j :: 0 <= i < j < |s| ==> s[i] != s[j]
  }

  ghost predicate AllValid(s: seq<Perm>) {
    forall p :: p in s ==> IsValid(p)
  }

  /** A list a group may hold: valid permissions, each at most once. */
  ghost predicate Clean(s: seq<Perm>) {
    AllValid(s) && NoDuplicates(s)
  }

  /** The first occurrences, in order. */
  function FirstOccurrences(s: seq<Perm>): seq<Perm> {
    if s == [] then []
    else
      var front, p := s[..|s| - 1], s[|s| - 1];
      if p in front then FirstOccurrences(front) else FirstOccurrences(front) + [p]
  }

  method NormalizePerms(perms: seq<Perm>) returns (r: Result<seq<Perm>, Perm>)
    ensures r.Ok? <==> AllValid(perms)
    ensures r.Ok? ==> r.value == FirstOccurrences(perms)
    ensures r.Err? ==>
      exists i :: 0 <= i < |perms| && perms[i] == r.error && !IsValid(r.error) && AllValid(perms[..i])
  {
    var valid := map p | p in VALID_PERMS :: true;
    var out: seq<Perm> := [];
    var seen: set<Perm> := {};
    for i := 0 to |perms|
      invariant AllValid(perms[..i])
      invariant out == FirstOccurrences(perms[..i])
      invariant forall p :: p in seen <==> p in perms[..i]
    {
      var p := perms[i];
      assert perms[..i + 1][..i] == perms[..i];
      if p !in valid {
        assert perms[i] == p && !IsValid(p) && AllValid(perms[..i]);
        return Err(p);
      }
      if p !in seen {
        seen := seen + {p};
        out := out + [p];
      }
    }
    assert perms[..|perms|] == perms;
    r := Ok(out);
  }

  /** Normalizing keeps every permission and repeats none. */
  lemma {:induction false} FirstOccurrencesFaithful(s: seq<Perm>)
    ensures forall p :: p in FirstOccurrences(s) <==> p in s
    ensures NoDuplicates(FirstOccurrences(s))
  {
    if s == [] {
    } else {
      FirstOccurrencesFaithful(s[..|s| - 1]);
      assert s == s[..|s| - 1] + [s[|s| - 1]];
    }
  }

  /** The position of p's first occurrence. */
  function FirstIndex(s: seq<Perm>, p: Perm): (i: nat)
    requires p in s
    ensures i < |s| && s[i] == p && p !in s[..i]
  {
    if s[0] == p then 0 else FirstIndex(s[1..], p) + 1
  }

  lemma {:induction false} FirstIndexIn(s: seq<Perm>, t: seq<Perm>, p: Perm)
    requires p in s
    ensures FirstIndex(s + t, p) == FirstIndex(s, p)
  {
    if s[0] == p {
    } else {
      assert (s + t)[1..] == s[1..] + t;
      FirstIndexIn(s[1..], t, p);
    }
  }

  /** The order of the result is the order of first occurrence. */
  lemma {:induction false} FirstOccurrencesInOrder(s: seq<Perm>, i: nat, j: nat)
    requires i < j < |FirstOccurrences(s)|
    ensures FirstOccurrences(s)[i] in s && FirstOccurrences(s)[j] in s
    ensures FirstIndex(s, FirstOccurrences(s)[i]) < FirstIndex(s, FirstOccurrences(s)[j])
  {
    FirstOccurrencesFaithful(s);
    var out := FirstOccurrences(s);
    assert out[i] in out && out[j] in out;
    var front, p := s[..|s| - 1], s[|s| - 1];
    assert s == front + [p];
    FirstOccurrencesFaithful(front);
    var fo := FirstOccurrences(front);
    if j < |fo| {
      FirstOccurrencesInOrder(front, i, j);
      FirstIndexIn(front, [p], out[i]);
      FirstIndexIn(front, [p], out[j]);
    } else {
      assert out[i] == fo[i] && fo[i] in front;
      FirstIndexIn(front, [p], out[i]);
    }
  }

  /** A normalized list is left as it is, so normalizing is idempotent. */
  lemma {:induction false} NormalizedIsFixed(s: seq<Perm>)
    requires NoDuplicates(s)
    ensures FirstOccurrences(s) == s
  {
    if s == [] {
    } else {
      NormalizedIsFixed(s[..|s| - 1]);
      assert s == s[..|s| - 1] + [s[|s| - 1]];
    }
  }

  lemma NormalizingTwice(s: seq<Perm>)
    ensures FirstOccurrences(FirstOccurrences(s)) == FirstOccurrences(s)
    ensures AllValid(s) ==> Clean(FirstOccurrences(s))
  {
    FirstOccurrencesFaithful(s);
    NormalizedIsFixed(FirstOccurrences(s));
  }
}
