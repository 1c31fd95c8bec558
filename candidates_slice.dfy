/** The archive of completed candidate profiles, newest first. Its only
    operation puts a profile at the front; nothing checks whether a profile
    with the same id is already there. */
module CandidatesSlice {
  import opened InterviewSlice

  /** A finished interview. `id` is meant to be the candidate's email; `date`
      is the completion time as a timestamp (the order the dashboard sorts by). */
  datatype CandidateProfile = CandidateProfile(
    id: string,
    candidateInfo: CandidateInfo,
    questions: seq<Question>,
    answers: seq<string>,
    score: int,
    summary: string,
    date: int)

  /** Number of profiles in `profiles` whose id is `id`. */
  function CountId(profiles: seq<CandidateProfile>, id: string): (n: nat)
    ensures n <= |profiles|
  {
    if profiles == [] then 0
    else (if profiles[0].id == id then 1 else 0) + CountId(profiles[1..], id)
  }

  lemma {:induction false} CountIdPositive(profiles: seq<CandidateProfile>, i: nat)
    requires i < |profiles|
    ensures CountId(profiles, profiles[i].id) >= 1
    decreases i
  {
    if i > 0 {
      CountIdPositive(profiles[1..], i - 1);
      assert profiles[1..][i - 1] == profiles[i];
    }
  }

  /** Adding a profile raises the count of its own id by exactly one and
      leaves every other id's count alone. */
  lemma AddCountsId(profiles: seq<CandidateProfile>, p: CandidateProfile, id: string)
    ensures CountId([p] + profiles, id) == CountId(profiles, id) + (if id == p.id then 1 else 0)
  {
    assert ([p] + profiles)[1..] == profiles;
  }

  /** No duplicate guard: adding a profile whose id is already archived
      leaves two (or more) entries with that id. */
  lemma AddDuplicateId(profiles: seq<CandidateProfile>, p: CandidateProfile, i: nat)
    requires i < |profiles| && profiles[i].id == p.id
    ensures CountId([p] + profiles, p.id) >= 2
  {
    CountIdPositive(profiles, i);
    AddCountsId(profiles, p, p.id);
  }

  class CandidatesStore {
    var profiles: seq<CandidateProfile>

    constructor ()
      ensures profiles == []
    {
      profiles := [];
    }

    /** `profiles.unshift(profile)`. */
    method AddCandidateProfile(profile: CandidateProfile)
      modifies this
      ensures profiles == [profile] + old(profiles)
      ensures |profiles| == |old(profiles)| + 1 && profiles[0] == profile
      ensures forall i :: 0 <= i < |old(profiles)| ==> profiles[i + 1] == old(profiles)[i]
    {
      profiles := [profile] + profiles;
    }
  }
}
