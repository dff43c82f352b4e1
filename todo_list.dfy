/** The pure list transforms of the to-do component: adding, toggling and deleting
    items, and the rule that picks what receives focus after a row is deleted. */
module TodoList {
  import opened JsString

  /** One to-do item. `id` is the creation timestamp in milliseconds. */
  datatype Todo = Todo(id: int, text: string, completed: bool)

  /** Where focus is sent: the text input, or the row at a position in the list. */
  datatype FocusTarget = Input | Row(index: int)

  /** The ids that occur in a list. */
  function Ids(s: seq<Todo>): set<int> {
    set t | t in s :: t.id
  }

  /** No two items of the list share an id. */
  predicate UniqueIds(s: seq<Todo>) {
    forall i, j :: 0 <= i < j < |s| ==> s[i].id != s[j].id
  }

  /** How many items of the list carry `id`. */
  function Occurrences(s: seq<Todo>, id: int): (n: nat)
    ensures n <= |s|
    ensures n == 0 <==> id !in Ids(s)
  {
    if s == [] then 0
    else
      assert s == [s[0]] + s[1..];
      (if s[0].id == id then 1 else 0) + Occurrences(s[1..], id)
  }

  /** `r` is `s` with some items left out and the rest in their original order. */
  ghost predicate IsSubsequence(r: seq<Todo>, s: seq<Todo>)
    decreases |s|
  {
    if r == [] then true
    else if s == [] then false
    else (r[0] == s[0] && IsSubsequence(r[1..], s[1..])) || IsSubsequence(r, s[1..])
  }

  /** Text that `trim()` reduces to the empty string. */
  predicate IsBlank(text: string) {
    Trim(text) == ""
  }

  /** `addTodo`: blank text is refused and the list is returned as it was; any other
      text is appended, untrimmed and not completed, under the id `now`. */
  function Add(s: seq<Todo>, text: string, now: int): (r: seq<Todo>)
    ensures IsBlank(text) ==> r == s
    ensures !IsBlank(text) ==>
      |r| == |s| + 1 && r[..|s|] == s && r[|s|] == Todo(now, text, false)
    ensures Ids(r) == if IsBlank(text) then Ids(s) else Ids(s) + {now}
  {
    if IsBlank(text) then s
    else
      var r := s + [Todo(now, text, false)];
      assert forall t :: t in r <==> t in s || t == Todo(now, text, false);
      r
  }

  /** One step of `toggleTodo`'s map: the item with `id` has its completion flipped. */
  function Flip(t: Todo, id: int): Todo {
    if t.id == id then t.(completed := !t.completed) else t
  }

  /** `toggleTodo`: same length, same order, same ids and texts; exactly the items
      carrying `id` change their completion flag. */
  function Toggle(s: seq<Todo>, id: int): (r: seq<Todo>)
    ensures |r| == |s|
    ensures forall i :: 0 <= i < |s| ==> r[i].id == s[i].id && r[i].text == s[i].text
    ensures forall i :: 0 <= i < |s| ==> (r[i].completed != s[i].completed <==> s[i].id == id)
  {
    if s == [] then [] else [Flip(s[0], id)] + Toggle(s[1..], id)
  }

  /** `deleteTodo`'s filter: the length drops by the number of items carrying `id`
      (which items remain is `DeleteMembers`, in what order `DeleteIsSubsequence`). */
  function Delete(s: seq<Todo>, id: int): (r: seq<Todo>)
    ensures |r| + Occurrences(s, id) == |s|
  {
    if s == [] then []
    else if s[0].id == id then Delete(s[1..], id)
    else [s[0]] + Delete(s[1..], id)
  }

  /** The deferred focus choice of `deleteTodo`: the row now at `index`
      if there is one, otherwise the text input. */
  function FocusAfterDelete(index: int, remaining: seq<Todo>): (f: FocusTarget)
    ensures f.Row? <==> 0 <= index < |remaining|
    ensures f.Row? ==> f.index == index
  {
    if 0 <= index < |remaining| then Row(index) else Input
  }

  // ---------------------------------------------------------------------------
  // Ids and uniqueness of a list built from its first item and the rest

  lemma IdsCons(x: Todo, t: seq<Todo>)
    ensures Ids([x] + t) == {x.id} + Ids(t)
  {
  }

  lemma UniqueCons(x: Todo, t: seq<Todo>)
    ensures UniqueIds([x] + t) <==> x.id !in Ids(t) && UniqueIds(t)
  {
    var u := [x] + t;
    if UniqueIds(u) {
      forall v | v in t ensures v.id != x.id {
        var k :| 0 <= k < |t| && t[k] == v;
        assert u[0] == x && u[k + 1] == v;
        assert 0 < k + 1 < |u|;
      }
      forall i, j | 0 <= i < j < |t| ensures t[i].id != t[j].id {
        assert u[i + 1] == t[i] && u[j + 1] == t[j];
      }
    }
    if x.id !in Ids(t) && UniqueIds(t) {
      forall i, j | 0 <= i < j < |u| ensures u[i].id != u[j].id {
        if i == 0 {
          assert u[j] == t[j - 1] && t[j - 1] in t;
          assert u[j].id in Ids(t);
        } else {
          assert u[i] == t[i - 1] && u[j] == t[j - 1];
        }
      }
      assert UniqueIds(u);
    }
  }

  // ---------------------------------------------------------------------------
  // Add

  /** Appending keeps ids unique exactly when the text is blank or `now` is unused:
      nothing in `addTodo` rules out a timestamp that is already in the list. */
  lemma AddKeepsIdsUniqueIff(s: seq<Todo>, text: string, now: int)
    requires UniqueIds(s)
    ensures UniqueIds(Add(s, text, now)) <==> IsBlank(text) || now !in Ids(s)
  {
  }

  // ---------------------------------------------------------------------------
  // Toggle

  /** Toggling the same id twice restores the list. */
  lemma ToggleTwice(s: seq<Todo>, id: int)
    ensures Toggle(Toggle(s, id), id) == s
  {
  }

  /** Toggling an id that no item carries changes nothing. */
  lemma ToggleAbsent(s: seq<Todo>, id: int)
    requires id !in Ids(s)
    ensures Toggle(s, id) == s
  {
  }

  /** Toggling neither adds nor removes ids, so it keeps ids unique. */
  lemma ToggleKeepsIds(s: seq<Todo>, id: int)
    ensures Ids(Toggle(s, id)) == Ids(s)
    ensures UniqueIds(s) ==> UniqueIds(Toggle(s, id))
  {
  }

  // ---------------------------------------------------------------------------
  // Delete

  /** Deleting keeps the surviving items in their original relative order. */
  lemma {:induction false} DeleteIsSubsequence(s: seq<Todo>, id: int)
    ensures IsSubsequence(Delete(s, id), s)
    decreases |s|
  {
    if s != [] {
      DeleteIsSubsequence(s[1..], id);
      var r := Delete(s, id);
      if s[0].id != id {
        assert r[0] == s[0] && r[1..] == Delete(s[1..], id);
      } else if r != [] {
        assert r == Delete(s[1..], id);
      }
    }
  }

  /** Deleting an id that no item carries changes nothing. */
  lemma {:induction false} DeleteAbsent(s: seq<Todo>, id: int)
    requires id !in Ids(s)
    ensures Delete(s, id) == s
  {
    if s != [] {
      assert s == [s[0]] + s[1..];
      IdsCons(s[0], s[1..]);
      DeleteAbsent(s[1..], id);
    }
  }

  /** Exactly the items carrying `id` are removed: every other item is kept. */
  lemma {:induction false} DeleteMembers(s: seq<Todo>, id: int)
    ensures forall t :: t in Delete(s, id) <==> t in s && t.id != id
    decreases |s|
  {
    if s != [] {
      assert s == [s[0]] + s[1..];
      DeleteMembers(s[1..], id);
    }
  }

  /** The ids left after a delete are the old ones less `id`: a delete never
      introduces an id. */
  lemma DeleteIds(s: seq<Todo>, id: int)
    ensures Ids(Delete(s, id)) == Ids(s) - {id}
  {
    var r := Delete(s, id);
    DeleteMembers(s, id);
    forall x | x in Ids(s) - {id} ensures x in Ids(r) {
      var t :| t in s && t.id == x;
      assert t in r;
    }
  }

  /** Deleting keeps ids unique. */
  lemma {:induction false} DeleteKeepsIdsUnique(s: seq<Todo>, id: int)
    requires UniqueIds(s)
    ensures UniqueIds(Delete(s, id))
    decreases |s|
  {
    if s != [] {
      assert s == [s[0]] + s[1..];
      UniqueCons(s[0], s[1..]);
      DeleteKeepsIdsUnique(s[1..], id);
      if s[0].id != id {
        DeleteIds(s[1..], id);
        UniqueCons(s[0], Delete(s[1..], id));
      }
    }
  }

  /** With unique ids, every id occurs at most once, so deleting a present id
      shortens the list by exactly one. */
  lemma {:induction false} UniqueOccurrences(s: seq<Todo>, id: int)
    requires UniqueIds(s)
    ensures Occurrences(s, id) == if id in Ids(s) then 1 else 0
    ensures id in Ids(s) ==> |Delete(s, id)| == |s| - 1
    decreases |s|
  {
    if s != [] {
      assert s == [s[0]] + s[1..];
      UniqueCons(s[0], s[1..]);
      IdsCons(s[0], s[1..]);
      UniqueOccurrences(s[1..], id);
    }
  }

  /** With unique ids, deleting the id of the row at `k` removes exactly that row. */
  lemma {:induction false} DeleteAt(s: seq<Todo>, k: int)
    requires UniqueIds(s) && 0 <= k < |s|
    ensures Delete(s, s[k].id) == s[..k] + s[k + 1..]
    decreases |s|
  {
    var id, tail := s[k].id, s[1..];
    assert s == [s[0]] + tail;
    UniqueCons(s[0], tail);
    if k == 0 {
      DeleteAbsent(tail, id);
      assert Delete(s, id) == Delete(tail, id);
    } else {
      assert s[0].id != id;
      assert tail[k - 1] == s[k];
      DeleteAt(tail, k - 1);
      calc {
        Delete(s, id);
        [s[0]] + Delete(tail, id);
        [s[0]] + (tail[..k - 1] + tail[k..]);
        { assert s[..k] == [s[0]] + tail[..k - 1]; assert s[k + 1..] == tail[k..]; }
        s[..k] + s[k + 1..];
      }
    }
  }

  // ---------------------------------------------------------------------------
  // Focus after delete

  /** Deleting the row at `k` of a list with unique ids sends focus to the row that
      moved up into its place, or to the text input when the deleted row was last. */
  lemma FocusMovesToSuccessor(s: seq<Todo>, k: int)
    requires UniqueIds(s) && 0 <= k < |s|
    ensures k + 1 < |s| ==>
      FocusAfterDelete(k, Delete(s, s[k].id)) == Row(k) && Delete(s, s[k].id)[k] == s[k + 1]
    ensures k + 1 == |s| ==> FocusAfterDelete(k, Delete(s, s[k].id)) == Input
  {
    DeleteAt(s, k);
  }
}
