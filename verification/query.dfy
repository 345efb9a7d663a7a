/** `Model.findOne(filter)` over a collection kept as a sequence in insertion order:
    the answer is the first document the filter matches. */
module Query {
  import opened Js

  function FindFirst<T>(docs: seq<T>, matches: T -> bool): (r: Option<nat>)
    ensures r.Some? ==> r.value < |docs| && matches(docs[r.value])
    ensures r.Some? ==> forall j :: 0 <= j < r.value ==> !matches(docs[j])
    ensures r.None? <==> forall j :: 0 <= j < |docs| ==> !matches(docs[j])
  {
    if docs == [] then None
    else if matches(docs[0]) then Some(0)
    else match FindFirst(docs[1..], matches)
      case None => None
      case Some(k) => Some(k + 1)
  }

  /** Overwriting the found document with one the filter still matches leaves it the answer. */
  lemma FindFirstAfterSave<T>(docs: seq<T>, matches: T -> bool, i: nat, d: T)
    requires FindFirst(docs, matches) == Some(i)
    requires matches(d)
    ensures FindFirst(docs[i := d], matches) == Some(i)
  {
    var after := docs[i := d];
    forall j | 0 <= j < i ensures !matches(after[j]) {
      assert after[j] == docs[j];
    }
    assert after[i] == d;
  }

  /** When nothing matched before, an appended matching document is the answer. */
  lemma FindFirstAfterInsert<T>(docs: seq<T>, matches: T -> bool, d: T)
    requires FindFirst(docs, matches) == None
    requires matches(d)
    ensures FindFirst(docs + [d], matches) == Some(|docs|)
  {
    var after := docs + [d];
    forall j | 0 <= j < |docs| ensures !matches(after[j]) {
      assert after[j] == docs[j];
    }
    assert after[|docs|] == d;
  }
}
