/** Singly linked lists over numbered entries: the i-th entry of `next` is the link field of entry i. */
module LinkedLists {
  import opened Options

  /** Following the links from `head` visits the entries of `list`, and ends there. */
  predicate ListAt(next: seq<Option<nat>>, head: Option<nat>, list: seq<nat>)
    decreases |list|
  {
    if list == [] then head == None
    else head == Some(list[0]) && list[0] < |next| && ListAt(next, next[list[0]], list[1..])
  }

  /** The links of other entries do not matter. */
  lemma {:induction false} ListKept(
      next: seq<Option<nat>>, head: Option<nat>, list: seq<nat>, x: nat, link: Option<nat>)
    requires ListAt(next, head, list) && x < |next| && x !in list
    ensures ListAt(next[x := link], head, list)
    decreases |list|
  {
    if list != [] {
      ListKept(next, next[list[0]], list[1..], x, link);
    }
  }

  /** An entry that is not in the list, linked to its head, is the new head. */
  lemma ListPush(next: seq<Option<nat>>, head: Option<nat>, list: seq<nat>, x: nat)
    requires ListAt(next, head, list) && x < |next| && x !in list
    ensures ListAt(next[x := head], Some(x), [x] + list)
  {
    ListKept(next, head, list, x, head);
    assert ([x] + list)[1..] == list;
  }
}
