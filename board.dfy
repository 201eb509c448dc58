/**
 * The list lookup of getIdListByName (approved_PR/index.js:58-62): after the
 * lists of a board have been fetched, `Array.prototype.find` returns the first
 * list whose name is strictly equal to the wanted name, and its id is the
 * result; when no list has that name the result is `null`.
 */
module Board {
  import opened Wrappers

  /** A list of a Trello board, as the lists endpoint returns it (only the fields read). */
  datatype BoardList = BoardList(id: string, name: string)

  /** `listsBoard.find(el => el.name === name)`: the first list with that name, if any. */
  function FindList(listsBoard: seq<BoardList>, name: string): (item: Option<BoardList>)
    ensures item.None? <==> forall k :: 0 <= k < |listsBoard| ==> listsBoard[k].name != name
    ensures item.Some? ==>
      exists k :: 0 <= k < |listsBoard| && listsBoard[k] == item.value
        && item.value.name == name && forall j :: 0 <= j < k ==> listsBoard[j].name != name
  {
    if listsBoard == [] then None
    else if listsBoard[0].name == name then Some(listsBoard[0])
    else
      var r := FindList(listsBoard[1..], name);
      assert forall k :: 1 <= k < |listsBoard| ==> listsBoard[k] == listsBoard[1..][k - 1];
      r
  }

  /** `item ? item.id : null`: the id of the first list with that name, or none. */
  function GetIdListByName(name: string, listsBoard: seq<BoardList>): (listId: Option<string>)
    ensures listId.None? <==> forall k :: 0 <= k < |listsBoard| ==> listsBoard[k].name != name
    ensures listId.Some? ==>
      exists k :: 0 <= k < |listsBoard| && listsBoard[k].name == name
        && listsBoard[k].id == listId.value && forall j :: 0 <= j < k ==> listsBoard[j].name != name
  {
    match FindList(listsBoard, name)
    case None => None
    case Some(item) => Some(item.id)
  }

  /** Lists after the first one with the wanted name have no effect on the result. */
  lemma {:induction false} LaterListsIgnored(name: string, front: seq<BoardList>, back: seq<BoardList>)
    requires exists k :: 0 <= k < |front| && front[k].name == name
    ensures GetIdListByName(name, front + back) == GetIdListByName(name, front)
  {
    FindListAppend(name, front, back);
  }

  lemma {:induction false} FindListAppend(name: string, front: seq<BoardList>, back: seq<BoardList>)
    requires exists k :: 0 <= k < |front| && front[k].name == name
    ensures FindList(front + back, name) == FindList(front, name)
  {
    assert (front + back)[0] == front[0];
    if front[0].name != name {
      assert (front + back)[1..] == front[1..] + back;
      var k :| 0 <= k < |front| && front[k].name == name;
      assert front[1..][k - 1] == front[k];
      FindListAppend(name, front[1..], back);
    }
  }

  /** When no list has the wanted name, the search falls through to the lists after them. */
  lemma {:induction false} UnnamedListsSkipped(name: string, front: seq<BoardList>, back: seq<BoardList>)
    requires forall k :: 0 <= k < |front| ==> front[k].name != name
    ensures GetIdListByName(name, front + back) == GetIdListByName(name, back)
  {
    UnnamedFindSkipped(name, front, back);
  }

  lemma {:induction false} UnnamedFindSkipped(name: string, front: seq<BoardList>, back: seq<BoardList>)
    requires forall k :: 0 <= k < |front| ==> front[k].name != name
    ensures FindList(front + back, name) == FindList(back, name)
  {
    if front == [] {
      assert front + back == back;
    } else {
      assert (front + back)[0] == front[0];
      assert (front + back)[1..] == front[1..] + back;
      assert forall k :: 0 <= k < |front[1..]| ==> front[1..][k] == front[k + 1];
      UnnamedFindSkipped(name, front[1..], back);
    }
  }
}
