/** Status graphs of the two versioned records and the single lookup that consults them. */
module Lifecycle {
  import opened Results

  datatype Status = Draft | Review | Approved | Restricted | Revoked | Valid | Expired

  const CERTIFICATE_TRANSITIONS: map<Status, set<Status>> :=
    map[Draft := {Valid}, Valid := {Expired, Revoked}, Expired := {Revoked}, Revoked := {}]

  const RELEASE_AUTHORIZATION_TRANSITIONS: map<Status, set<Status>> :=
    map[Draft := {Review}, Review := {Approved, Restricted, Draft},
        Approved := {Restricted, Revoked}, Restricted := {Revoked}, Revoked := {}]

  predicate CanTransition<S>(graph: map<S, set<S>>, from: S, to: S) {
    from in graph && to in graph[from]
  }

  function Name(s: Status): string {
    match s
    case Draft => "draft"
    case Review => "review"
    case Approved => "approved"
    case Restricted => "restricted"
    case Revoked => "revoked"
    case Valid => "valid"
    case Expired => "expired"
  }

  /** The status a request names; any other text is `None`, which no graph contains. */
  function Parse(s: string): Option<Status> {
    if s == "draft" then Some(Draft)
    else if s == "review" then Some(Review)
    else if s == "approved" then Some(Approved)
    else if s == "restricted" then Some(Restricted)
    else if s == "revoked" then Some(Revoked)
    else if s == "valid" then Some(Valid)
    else if s == "expired" then Some(Expired)
    else None
  }

  lemma ParseName(s: Status)
    ensures Parse(Name(s)) == Some(s)
  {
    assert "valid"[0] != "draft"[0];
    assert "revoked"[2] != "expired"[2];
  }
}
