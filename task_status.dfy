/** The task lifecycle OPEN -> IN_PROGRESS -> DONE and its transition rule. */
module TaskStatus {
  import opened Seqs

  datatype Status = OPEN | IN_PROGRESS | DONE

  /** The lifecycle order the transition check looks statuses up in. */
  const StatusOrder: seq<Status> := [OPEN, IN_PROGRESS, DONE]

  /** Reference rank of each status in the lifecycle. */
  function Rank(s: Status): nat {
    match s
    case OPEN => 0
    case IN_PROGRESS => 1
    case DONE => 2
  }

  lemma StatusOrderPosition(s: Status)
    ensures IndexOf(StatusOrder, s) == Rank(s)
  {
    assert StatusOrder[0] == OPEN && StatusOrder[1] == IN_PROGRESS && StatusOrder[2] == DONE;
    assert StatusOrder[1..] == [IN_PROGRESS, DONE] && StatusOrder[2..] == [DONE];
  }

  /** A move from `current` to `next` is legal when `next` does not come
      earlier than `current` in the lifecycle order. */
  function IsValidStatusTransition(current: Status, next: Status): (ok: bool)
    ensures ok <==> Rank(current) <= Rank(next)
  {
    StatusOrderPosition(current);
    StatusOrderPosition(next);
    IndexOf(StatusOrder, current) <= IndexOf(StatusOrder, next)
  }

  /** The only illegal moves are the three regressions. */
  lemma IllegalExactlyWhenRegressing(current: Status, next: Status)
    ensures !IsValidStatusTransition(current, next) <==>
      (current == IN_PROGRESS && next == OPEN) ||
      (current == DONE && next == OPEN) ||
      (current == DONE && next == IN_PROGRESS)
  {
  }

  /** Legality is a total order on statuses: staying put is legal, legal
      moves compose, and two distinct statuses are legal in one direction only. */
  lemma TransitionIsTotalOrder(a: Status, b: Status, c: Status)
    ensures IsValidStatusTransition(a, a)
    ensures IsValidStatusTransition(a, b) && IsValidStatusTransition(b, c) ==> IsValidStatusTransition(a, c)
    ensures IsValidStatusTransition(a, b) || IsValidStatusTransition(b, a)
    ensures IsValidStatusTransition(a, b) && IsValidStatusTransition(b, a) ==> a == b
  {
  }
}
