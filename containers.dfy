// codes/ch11.cpp: filling a vector and a list with 0, 1, 2, ...; counting
// letter frequencies in a paragraph and reporting the five most frequent;
// a task queue kept in a std::list.
module Containers {
  import opened SeqOps
  import opened Algorithms

  // ---------------------------------------------------------------------------
  // Problem 1: push_back of 0 .. cnt-1

  /** The `for (int i = 0; i < cnt; ++i) vec.push_back(i);` loop (the list is
      filled the same way). */
  method FillSequential(cnt: int) returns (vec: seq<int>)
    ensures |vec| == if cnt < 0 then 0 else cnt
    ensures forall i :: 0 <= i < |vec| ==> vec[i] == i
  {
    vec := [];
    var i := 0;
    while i < cnt
      invariant 0 <= i && (cnt >= 0 ==> i <= cnt) && (cnt < 0 ==> i == 0)
      invariant |vec| == i
      invariant forall k :: 0 <= k < i ==> vec[k] == k
    {
      vec := vec + [i];
      i := i + 1;
    }
  }

  // ---------------------------------------------------------------------------
  // Problem 2: letter frequencies

  /** isalpha in the "C" locale. */
  predicate IsAlpha(c: char) {
    'A' <= c <= 'Z' || 'a' <= c <= 'z'
  }

  predicate IsLowerLetter(c: char) {
    'a' <= c <= 'z'
  }

  /** tolower in the "C" locale. */
  function ToLower(c: char): (r: char)
    ensures IsAlpha(c) ==> IsLowerLetter(r)
    ensures !('A' <= c <= 'Z') ==> r == c
    ensures 'A' <= c <= 'Z' ==> r as int - 'a' as int == c as int - 'A' as int
  {
    if 'A' <= c <= 'Z' then (c as int - 'A' as int + 'a' as int) as char else c
  }

  /** Counting ignores case: a letter and its upper-case form share a key. */
  lemma KeyIgnoresCase(c: char)
    requires IsLowerLetter(c)
    ensures KeyOf((c as int - 'a' as int + 'A' as int) as char) == KeyOf(c)
  {
  }

  /** The map key `string(1, tolower(c))`. */
  function KeyOf(c: char): string {
    [ToLower(c)]
  }

  /** `m[k]` of an unordered_map read without inserting: 0 when absent. */
  function Get(m: map<string, int>, k: string): int {
    if k in m then m[k] else 0
  }

  /** `word_count[k]++`: operator[] inserts 0 for a missing key first. */
  function Increment(m: map<string, int>, k: string): (r: map<string, int>)
    ensures r.Keys == m.Keys + {k}
    ensures r[k] == Get(m, k) + 1
    ensures forall k' :: k' in m && k' != k ==> r[k'] == m[k']
  {
    m[k := Get(m, k) + 1]
  }

  /** The map the counting loop builds from a text. */
  function LetterCounts(s: string): map<string, int> {
    if s == [] then map[]
    else
      var m := LetterCounts(s[..|s| - 1]);
      var c := s[|s| - 1];
      if IsAlpha(c) then Increment(m, KeyOf(c)) else m
  }

  /** `c` is a letter counted under key `k`. */
  function CountsUnder(k: string): char -> bool {
    (c: char) => IsAlpha(c) && KeyOf(c) == k
  }

  /** The counting loop of lines 37-43. */
  method CountLetters(paragraph: string) returns (wordCount: map<string, int>)
    ensures wordCount == LetterCounts(paragraph)
  {
    wordCount := map[];
    var i := 0;
    while i < |paragraph|
      invariant 0 <= i <= |paragraph|
      invariant wordCount == LetterCounts(paragraph[..i])
    {
      var c := paragraph[i];
      assert paragraph[..i + 1][..i] == paragraph[..i];
      if IsAlpha(c) {
        wordCount := Increment(wordCount, KeyOf(c));
      }
      i := i + 1;
    }
    assert paragraph[..i] == paragraph;
  }

  /** Every key is a single lower-case letter. */
  lemma {:induction false} LetterCountsKeys(s: string)
    ensures forall k :: k in LetterCounts(s) ==> |k| == 1 && IsLowerLetter(k[0])
    decreases |s|
  {
    if s != [] {
      LetterCountsKeys(s[..|s| - 1]);
    }
  }

  /** The count stored under `k` is the number of letters of the text whose
      lower-case form is `k`; a key is present exactly when that number is
      positive. */
  lemma {:induction false} LetterCountsAgree(s: string, k: string)
    ensures Get(LetterCounts(s), k) == CountIf(s, CountsUnder(k))
    ensures k in LetterCounts(s) <==> CountIf(s, CountsUnder(k)) > 0
    decreases |s|
  {
    if s != [] {
      LetterCountsAgree(s[..|s| - 1], k);
    }
  }

  /** The 26 lower-case letters, in order. */
  function Alphabet(): (r: seq<char>)
    ensures |r| == 26
    ensures forall i :: 0 <= i < 26 ==> r[i] == ('a' as int + i) as char
  {
    seq(26, i requires 0 <= i < 26 => ('a' as int + i) as char)
  }

  /** The sum of the counts stored under the given one-letter keys. */
  function TotalOver(m: map<string, int>, letters: seq<char>): int {
    if letters == [] then 0
    else TotalOver(m, letters[..|letters| - 1]) + Get(m, [letters[|letters| - 1]])
  }

  lemma {:induction false} TotalOverIncrement(m: map<string, int>, c: char, j: nat)
    requires IsLowerLetter(c) && j <= 26
    ensures TotalOver(Increment(m, [c]), Alphabet()[..j])
         == TotalOver(m, Alphabet()[..j]) + (if c as int - 'a' as int < j then 1 else 0)
    decreases j
  {
    var letters := Alphabet()[..j];
    if j > 0 {
      assert letters[..j - 1] == Alphabet()[..j - 1];
      TotalOverIncrement(m, c, j - 1);
    }
  }

  /** The counts add up to the number of letters in the text. */
  lemma {:induction false} LetterCountsTotal(s: string)
    ensures TotalOver(LetterCounts(s), Alphabet()) == CountIf(s, IsAlpha)
    decreases |s|
  {
    assert Alphabet()[..26] == Alphabet();
    if s == [] {
      TotalOverEmpty(26);
    } else {
      var c := s[|s| - 1];
      LetterCountsTotal(s[..|s| - 1]);
      if IsAlpha(c) {
        TotalOverIncrement(LetterCounts(s[..|s| - 1]), ToLower(c), 26);
      }
    }
  }

  lemma {:induction false} TotalOverEmpty(j: nat)
    requires j <= 26
    ensures TotalOver(map[], Alphabet()[..j]) == 0
  {
    if j > 0 {
      assert Alphabet()[..j][..j - 1] == Alphabet()[..j - 1];
      TotalOverEmpty(j - 1);
    }
  }

  /** The count of an entry of `sorted_word_count`. */
  function Count(e: (string, int)): int {
    e.1
  }

  /** `vector<pair<string,int>> sorted_word_count(m.begin(), m.end())` followed
      by the sort by descending count: every entry of the map exactly once,
      counts non-increasing. The map's iteration order is unspecified, so the
      entries are taken out in an arbitrary order. */
  method SortedEntries(wordCount: map<string, int>) returns (sorted: seq<(string, int)>)
    ensures |sorted| == |wordCount|
    ensures forall e :: e in sorted <==> e.0 in wordCount && wordCount[e.0] == e.1
    ensures SortedBy(sorted, Count, true)
    ensures forall i, j :: 0 <= i < j < |sorted| ==> sorted[i].0 != sorted[j].0
  {
    var entries := Entries(wordCount);
    var a := new (string, int)[|entries|](i requires 0 <= i < |entries| => entries[i]);
    assert a[..] == entries;
    SortBy(a, Count, true);
    sorted := a[..];
    ReorderedEntries(wordCount, entries, sorted);
  }

  /** Copying the map into a vector: every entry once, in the map's
      (unspecified) iteration order. */
  method Entries(wordCount: map<string, int>) returns (entries: seq<(string, int)>)
    ensures |entries| == |wordCount|
    ensures forall e :: e in entries <==> e.0 in wordCount && wordCount[e.0] == e.1
    ensures forall i, j :: 0 <= i < j < |entries| ==> entries[i].0 != entries[j].0
  {
    entries := [];
    var rest := wordCount.Keys;
    while rest != {}
      invariant rest <= wordCount.Keys
      invariant |entries| + |rest| == |wordCount|
      invariant forall e :: e in entries ==> e.0 in wordCount && e.0 !in rest && wordCount[e.0] == e.1
      invariant forall k :: k in wordCount && k !in rest ==> (k, wordCount[k]) in entries
      invariant forall i, j :: 0 <= i < j < |entries| ==> entries[i].0 != entries[j].0
      decreases |rest|
    {
      var k :| k in rest;
      entries := entries + [(k, wordCount[k])];
      rest := rest - {k};
    }
  }

  /** Reordering the entries keeps each of them, once. */
  lemma ReorderedEntries(wordCount: map<string, int>, entries: seq<(string, int)>, sorted: seq<(string, int)>)
    requires forall e :: e in entries <==> e.0 in wordCount && wordCount[e.0] == e.1
    requires forall i, j :: 0 <= i < j < |entries| ==> entries[i].0 != entries[j].0
    requires multiset(sorted) == multiset(entries)
    ensures |sorted| == |entries|
    ensures forall e :: e in sorted <==> e.0 in wordCount && wordCount[e.0] == e.1
    ensures forall i, j :: 0 <= i < j < |sorted| ==> sorted[i].0 != sorted[j].0
  {
    assert |sorted| == |multiset(sorted)| == |multiset(entries)| == |entries|;
    assert forall e :: e in sorted <==> e in multiset(sorted);
    assert forall e :: e in entries <==> e in multiset(entries);
    PermutationDistinct(sorted, entries);
    forall i, j | 0 <= i < j < |sorted|
      ensures sorted[i].0 != sorted[j].0
    {
      assert sorted[i] in sorted && sorted[j] in sorted;
    }
  }

  function Min(a: int, b: int): int {
    if a < b then a else b
  }

  /** The report loop `for (i = 0; i < 5 && i < size; ++i)`: the first
      min(5, size) entries, none of which has a smaller count than an entry
      left out. */
  method TopFive(sorted: seq<(string, int)>) returns (shown: seq<(string, int)>)
    requires SortedBy(sorted, Count, true)
    ensures |shown| == Min(5, |sorted|)
    ensures shown == sorted[..|shown|]
    ensures forall i, j :: 0 <= i < |shown| <= j < |sorted| ==> sorted[j].1 <= shown[i].1
  {
    shown := [];
    var i := 0;
    while i < 5 && i < |sorted|
      invariant 0 <= i <= Min(5, |sorted|)
      invariant shown == sorted[..i]
    {
      shown := shown + [sorted[i]];
      i := i + 1;
    }
  }

  /** A prefix of the sorted entries is itself sorted and repeats no letter. */
  lemma ReportOrder(sorted: seq<(string, int)>, n: nat)
    requires n <= |sorted|
    requires SortedBy(sorted, Count, true)
    requires forall i, j :: 0 <= i < j < |sorted| ==> sorted[i].0 != sorted[j].0
    ensures SortedBy(sorted[..n], Count, true)
    ensures forall i, j :: 0 <= i < j < n ==> sorted[..n][i].0 != sorted[..n][j].0
  {
  }

  /** Each reported entry carries its letter's true, positive count. */
  lemma ReportedCountsTrue(paragraph: string, sorted: seq<(string, int)>, shown: seq<(string, int)>)
    requires forall e :: e in sorted <==> e.0 in LetterCounts(paragraph) && LetterCounts(paragraph)[e.0] == e.1
    requires |shown| <= |sorted| && shown == sorted[..|shown|]
    ensures forall e :: e in shown ==> e.1 == CountIf(paragraph, CountsUnder(e.0)) > 0
  {
    forall e | e in shown
      ensures e.1 == CountIf(paragraph, CountsUnder(e.0)) > 0
    {
      assert e in sorted;
      LetterCountsAgree(paragraph, e.0);
    }
  }

  /** A letter left out of the report is no more frequent than any reported one. */
  lemma UnreportedNotMore(paragraph: string, sorted: seq<(string, int)>, shown: seq<(string, int)>)
    requires forall e :: e in sorted <==> e.0 in LetterCounts(paragraph) && LetterCounts(paragraph)[e.0] == e.1
    requires |shown| <= |sorted| && shown == sorted[..|shown|]
    requires forall i, j :: 0 <= i < |shown| <= j < |sorted| ==> sorted[j].1 <= shown[i].1
    ensures forall i, k :: 0 <= i < |shown| && k in LetterCounts(paragraph) && !Reported(shown, k)
              ==> CountIf(paragraph, CountsUnder(k)) <= shown[i].1
  {
    var counts := LetterCounts(paragraph);
    forall i, k | 0 <= i < |shown| && k in counts && !Reported(shown, k)
      ensures CountIf(paragraph, CountsUnder(k)) <= shown[i].1
    {
      LetterCountsAgree(paragraph, k);
      assert (k, counts[k]) in sorted;
      var j :| 0 <= j < |sorted| && sorted[j] == (k, counts[k]);
    }
  }

  /** Some reported entry is for letter key `k`. */
  predicate Reported(shown: seq<(string, int)>, k: string) {
    exists j :: 0 <= j < |shown| && shown[j].0 == k
  }

  /** Problem 2 end to end: min(5, number of distinct letters) entries are
      reported, each a different letter with its true (positive) count, most
      frequent first, and no letter left out occurs more often than a
      reported one. */
  method TopLetterFrequencies(paragraph: string) returns (shown: seq<(string, int)>)
    ensures |shown| == Min(5, |LetterCounts(paragraph)|)
    ensures forall e :: e in shown ==> e.1 == CountIf(paragraph, CountsUnder(e.0)) > 0
    ensures forall i, k :: 0 <= i < |shown| && k in LetterCounts(paragraph) && !Reported(shown, k)
              ==> CountIf(paragraph, CountsUnder(k)) <= shown[i].1
    ensures forall i, j :: 0 <= i < j < |shown| ==> shown[i].0 != shown[j].0
    ensures SortedBy(shown, Count, true)
  {
    var wordCount := CountLetters(paragraph);
    var sorted := SortedEntries(wordCount);
    shown := TopFive(sorted);
    ReportOrder(sorted, |shown|);
    ReportedCountsTrue(paragraph, sorted, shown);
    UnreportedNotMore(paragraph, sorted, shown);
  }

  // ---------------------------------------------------------------------------
  // Problem 3: a task queue over std::list

  /** The local `Task` class: an immutable id. */
  datatype Task = Task(id: int) {
    function GetId(): int {
      id
    }
  }

  /** The predicate remove_if is NOT given: the tasks that stay. */
  function Keeps(id: int): Task -> bool {
    (t: Task) => t.GetId() != id
  }

  /** What `tasks.remove_if([id](const Task& t) { return t.getId() == id; })`
      leaves: the other tasks, in their order. */
  function RemoveMatching(tasks: seq<Task>, id: int): seq<Task> {
    Filter(tasks, Keeps(id))
  }

  class TaskQueue {
    var tasks: seq<Task>

    constructor ()
      ensures tasks == []
    {
      tasks := [];
    }

    /** push_back: the task goes to the back, the others keep their places. */
    method AddTask(task: Task)
      modifies this
      ensures tasks == old(tasks) + [task]
    {
      tasks := tasks + [task];
    }

    /** remove_if walks the list once and unlinks every matching node. */
    method RemoveTask(id: int)
      modifies this
      ensures tasks == RemoveMatching(old(tasks), id)
    {
      var kept: seq<Task> := [];
      var i := 0;
      while i < |tasks|
        invariant 0 <= i <= |tasks|
        invariant kept == RemoveMatching(tasks[..i], id)
      {
        assert tasks[..i + 1][..i] == tasks[..i];
        if tasks[i].GetId() != id {
          kept := kept + [tasks[i]];
        }
        i := i + 1;
      }
      assert tasks[..i] == tasks;
      tasks := kept;
    }
  }

  /** Every task with the id is removed, not only the first; every other task
      stays. */
  lemma RemoveMatchingRemovesAll(tasks: seq<Task>, id: int)
    ensures forall t :: t in RemoveMatching(tasks, id) ==> t.id != id
    ensures forall t :: t in tasks && t.id != id ==> t in RemoveMatching(tasks, id)
  {
    var r := RemoveMatching(tasks, id);
    forall t | t in r ensures t.id != id {
      var i :| 0 <= i < |r| && r[i] == t;
    }
    FilterKeeps(tasks, Keeps(id));
    forall t | t in tasks && t.id != id ensures t in r {
      var i :| 0 <= i < |tasks| && tasks[i] == t;
    }
  }

  /** Removal keeps the remaining tasks in their original relative order: it
      works piecewise on any split of the queue. */
  lemma RemoveMatchingKeepsOrder(front: seq<Task>, back: seq<Task>, id: int)
    ensures RemoveMatching(front + back, id) == RemoveMatching(front, id) + RemoveMatching(back, id)
  {
    FilterAppend(front, back, Keeps(id));
  }

  /** Removing an id no task has leaves the queue unchanged. */
  lemma RemoveAbsentId(tasks: seq<Task>, id: int)
    requires forall i :: 0 <= i < |tasks| ==> tasks[i].id != id
    ensures RemoveMatching(tasks, id) == tasks
  {
    FilterAllKept(tasks, Keeps(id));
  }

  /** Removing the id of the middle one of three tasks keeps the outer two. */
  lemma RemoveMiddle(a: Task, b: Task, c: Task, id: int)
    requires a.id != id && b.id == id && c.id != id
    ensures RemoveMatching([a, b, c], id) == [a, c]
  {
    assert [a, b, c] == [a] + [b] + [c];
    RemoveMatchingKeepsOrder([a] + [b], [c], id);
    RemoveMatchingKeepsOrder([a], [b], id);
    FilterSingleton(a, Keeps(id));
    FilterSingleton(b, Keeps(id));
    FilterSingleton(c, Keeps(id));
  }

  /** Lines 81-87: add tasks 1, 2, 3, remove 2. */
  method TaskQueueDemo() returns (remaining: seq<Task>)
    ensures remaining == [Task(1), Task(3)]
  {
    var queue := new TaskQueue();
    queue.AddTask(Task(1));
    queue.AddTask(Task(2));
    queue.AddTask(Task(3));
    assert queue.tasks == [Task(1), Task(2), Task(3)];
    RemoveMiddle(Task(1), Task(2), Task(3), 2);
    queue.RemoveTask(2);
    remaining := queue.tasks;
  }
}
