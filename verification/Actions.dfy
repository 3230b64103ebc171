// The status machine of one Daily Action (backend/src/lifeos/domain/checkins.py, `TRANSITIONS`).
module Actions {
  datatype Status = Planned | Started | Completed | Skipped

  function Transitions(current: Status): set<Status> {
    match current
    case Planned => {Started, Completed, Skipped}
    case Started => {Completed, Skipped}
    case Completed => {}
    case Skipped => {}
  }
}
