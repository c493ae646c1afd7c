/** First-match lookup in an ordered table of (result, trigger words), the
    shape of every `for name, words in table: if any(...): return name`
    chain in the system. */
module Lookup {
  import opened Optional

  /** Some word of `words` passes `hit`. */
  predicate AnyHit(words: seq<string>, hit: string -> bool) {
    exists i :: 0 <= i < |words| && hit(words[i])
  }

  /** The result of the first entry with a word passing `hit`, or `None`
      when no entry has one. */
  function FirstEntry<K>(table: seq<(K, seq<string>)>, hit: string -> bool): (r: Option<K>)
    ensures r.None? <==> forall i :: 0 <= i < |table| ==> !AnyHit(table[i].1, hit)
    ensures r.Some? ==> exists i :: 0 <= i < |table| && r.value == table[i].0 && AnyHit(table[i].1, hit)
                          && forall j :: 0 <= j < i ==> !AnyHit(table[j].1, hit)
    decreases |table|
  {
    if |table| == 0 then None
    else if AnyHit(table[0].1, hit) then Some(table[0].0)
    else
      var r := FirstEntry(table[1..], hit);
      assert forall i :: 1 <= i < |table| ==> table[i] == table[1..][i - 1];
      r
  }

  /** The entry a lookup picks is determined by its position: the first
      entry that hits wins, whatever later entries do. */
  lemma {:induction false} FirstEntryAt<K>(table: seq<(K, seq<string>)>, hit: string -> bool, i: nat)
    requires i < |table| && AnyHit(table[i].1, hit)
    requires forall j :: 0 <= j < i ==> !AnyHit(table[j].1, hit)
    ensures FirstEntry(table, hit) == Some(table[i].0)
    decreases i
  {
    if i > 0 {
      assert !AnyHit(table[0].1, hit);
      assert forall j :: 0 <= j < i - 1 ==> table[1..][j] == table[j + 1];
      FirstEntryAt(table[1..], hit, i - 1);
    }
  }
}
