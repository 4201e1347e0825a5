/** The page reorder buffer of `PDFBuilder` as a state machine over values.
    `Sequencer` holds what the builder keeps between results: the sorted
    `results_buffer`, `last_written`, the output document (absent until the first
    page) and the list of checkpoints written to disk. `appended` is the list of
    result numbers whose pages went into the document, a log kept for the proofs. */
module Reorder {
  import opened Results
  import opened Metadata

  /** `NumberedThing`: a payload tagged with its page number. */
  datatype Numbered<T> = Numbered(number: int, thing: T)

  /** One `write_pdf()`: the whole document as it stands, with its trailer. */
  datatype Checkpoint<P> = Checkpoint(pages: seq<P>, trailer: Trailer)

  datatype Sequencer<P> = Sequencer(
    buffer: seq<Numbered<P>>,
    lastWritten: int,
    pdf: Option<seq<P>>,
    writes: seq<Checkpoint<P>>,
    appended: seq<int>)

  function NumberKey<T>(x: Numbered<T>): int { x.number }
  function IntKey(x: int): int { x }

  function Numbers<T>(s: seq<Numbered<T>>): (r: seq<int>)
    ensures |r| == |s| && forall i :: 0 <= i < |s| ==> r[i] == s[i].number
  {
    seq(|s|, i requires 0 <= i < |s| => s[i].number)
  }

  function Things<T>(s: seq<Numbered<T>>): (r: seq<T>)
    ensures |r| == |s| && forall i :: 0 <= i < |s| ==> r[i] == s[i].thing
  {
    seq(|s|, i requires 0 <= i < |s| => s[i].thing)
  }

  /** `list(range(lo, hi))`. */
  function Range(lo: int, hi: int): (r: seq<int>)
    ensures |r| == (if lo < hi then hi - lo else 0)
    ensures forall i :: 0 <= i < |r| ==> r[i] == lo + i
  {
    seq(if lo < hi then hi - lo else 0, i => lo + i)
  }

  function Min(s: seq<int>): int
    requires |s| > 0
  {
    if |s| == 1 then s[0] else var m := Min(s[1..]); if s[0] <= m then s[0] else m
  }

  function Max(s: seq<int>): int
    requires |s| > 0
  {
    if |s| == 1 then s[0] else var m := Max(s[1..]); if s[0] >= m then s[0] else m
  }

  // ---------------------------------------------------------------------------
  // Python's stable `list.sort(key=...)`, as insertion sort

  predicate SortedBy<T>(s: seq<T>, key: T -> int) {
    forall i, j :: 0 <= i < j < |s| ==> key(s[i]) <= key(s[j])
  }

  /** Inserts `x` after every leading element whose key is at most `key(x)`. */
  function InsertBy<T>(s: seq<T>, x: T, key: T -> int): seq<T>
    decreases |s|
  {
    if s == [] then [x]
    else if key(x) < key(s[0]) then [x] + s
    else [s[0]] + InsertBy(s[1..], x, key)
  }

  /** `sorted(s, key=key)`: each element in turn is inserted after the equal keys
      already placed, so equal keys keep their order (the sort is stable). */
  function SortBy<T>(s: seq<T>, key: T -> int): seq<T>
    decreases |s|
  {
    if s == [] then [] else InsertBy(SortBy(s[..|s| - 1], key), s[|s| - 1], key)
  }

  /** Where `InsertBy` puts `x`. */
  function Slot<T>(s: seq<T>, x: T, key: T -> int): (k: nat)
    ensures k <= |s|
    decreases |s|
  {
    if s == [] || key(x) < key(s[0]) then 0 else 1 + Slot(s[1..], x, key)
  }

  lemma {:induction false} InsertAtSlot<T>(s: seq<T>, x: T, key: T -> int)
    ensures InsertBy(s, x, key) == s[..Slot(s, x, key)] + [x] + s[Slot(s, x, key)..]
    ensures forall i :: 0 <= i < Slot(s, x, key) ==> key(s[i]) <= key(x)
    ensures Slot(s, x, key) < |s| ==> key(x) < key(s[Slot(s, x, key)])
    decreases |s|
  {
    if s != [] && key(x) >= key(s[0]) {
      var t := s[1..];
      InsertAtSlot(t, x, key);
      var k := Slot(t, x, key);
      assert s[..k + 1] == [s[0]] + t[..k];
      assert s[k + 1..] == t[k..];
      forall i | 0 <= i < k + 1 ensures key(s[i]) <= key(x) {
        if i > 0 { assert s[i] == t[i - 1]; }
      }
    }
  }

  lemma InsertedAt<T>(s: seq<T>, x: T, key: T -> int)
    ensures var r, k := InsertBy(s, x, key), Slot(s, x, key);
      && |r| == |s| + 1
      && (forall m :: 0 <= m < k ==> r[m] == s[m])
      && r[k] == x
      && (forall m :: k < m < |r| ==> r[m] == s[m - 1])
  {
    InsertAtSlot(s, x, key);
  }

  lemma InsertKeepsSorted<T>(s: seq<T>, x: T, key: T -> int)
    requires SortedBy(s, key)
    ensures SortedBy(InsertBy(s, x, key), key)
  {
    InsertAtSlot(s, x, key);
    InsertedAt(s, x, key);
    var k := Slot(s, x, key);
    var r := InsertBy(s, x, key);
    forall i, j | 0 <= i < j < |r| ensures key(r[i]) <= key(r[j]) {
      if j < k {
        assert key(s[i]) <= key(s[j]);
      } else if j == k {
        assert key(s[i]) <= key(x);
      } else if i < k {
        assert key(s[i]) <= key(s[j - 1]);
      } else if i == k {
        assert key(s[k]) <= key(s[j - 1]);
      } else {
        assert key(s[i - 1]) <= key(s[j - 1]);
      }
    }
  }

  lemma {:induction false} InsertMultiset<T>(s: seq<T>, x: T, key: T -> int)
    ensures multiset(InsertBy(s, x, key)) == multiset(s) + multiset{x}
    decreases |s|
  {
    if s != [] {
      assert s == [s[0]] + s[1..];
      if key(x) >= key(s[0]) {
        InsertMultiset(s[1..], x, key);
      }
    }
  }

  lemma {:induction false} SortByIsSortedPermutation<T>(s: seq<T>, key: T -> int)
    ensures SortedBy(SortBy(s, key), key)
    ensures multiset(SortBy(s, key)) == multiset(s)
    ensures |SortBy(s, key)| == |s|
    decreases |s|
  {
    if s != [] {
      var init := s[..|s| - 1];
      SortByIsSortedPermutation(init, key);
      InsertKeepsSorted(SortBy(init, key), s[|s| - 1], key);
      InsertMultiset(SortBy(init, key), s[|s| - 1], key);
      assert s == init + [s[|s| - 1]];
    }
    assert |multiset(SortBy(s, key))| == |SortBy(s, key)|;
  }

  /** Sorting a sorted list changes nothing. */
  lemma {:induction false} SortOfSorted<T>(s: seq<T>, key: T -> int)
    requires SortedBy(s, key)
    ensures SortBy(s, key) == s
    decreases |s|
  {
    if s != [] {
      var init, last := s[..|s| - 1], s[|s| - 1];
      SortOfSorted(init, key);
      InsertAtSlot(init, last, key);
      var k := Slot(init, last, key);
      if k < |init| {
        assert false;
      }
      assert s == init + [last];
    }
  }

  lemma NumbersConcat<T>(a: seq<Numbered<T>>, b: seq<Numbered<T>>)
    ensures Numbers(a + b) == Numbers(a) + Numbers(b)
  {
    assert |Numbers(a + b)| == |Numbers(a) + Numbers(b)|;
    forall i | 0 <= i < |a + b| ensures Numbers(a + b)[i] == (Numbers(a) + Numbers(b))[i] {
      if i >= |a| { assert (a + b)[i] == b[i - |a|]; }
    }
  }

  lemma NumbersOne<T>(x: Numbered<T>)
    ensures Numbers([x]) == [x.number]
  {
    assert |Numbers([x])| == 1;
  }

  lemma {:induction false} NumbersOfInsert<T>(s: seq<Numbered<T>>, x: Numbered<T>)
    ensures multiset(Numbers(InsertBy(s, x, NumberKey))) == multiset(Numbers(s)) + multiset{x.number}
    decreases |s|
  {
    NumbersOne(x);
    if s != [] {
      var head, tail := [s[0]], s[1..];
      assert s == head + tail;
      NumbersConcat(head, tail);
      if NumberKey(x) < NumberKey(s[0]) {
        NumbersConcat([x], s);
      } else {
        NumbersOfInsert(tail, x);
        NumbersConcat(head, InsertBy(tail, x, NumberKey));
      }
    }
  }

  lemma {:induction false} NumbersOfSort<T>(s: seq<Numbered<T>>)
    ensures multiset(Numbers(SortBy(s, NumberKey))) == multiset(Numbers(s))
    decreases |s|
  {
    if s != [] {
      var init := s[..|s| - 1];
      NumbersOfSort(init);
      NumbersOfInsert(SortBy(init, NumberKey), s[|s| - 1]);
      assert Numbers(s) == Numbers(init) + [s[|s| - 1].number];
    }
  }

  // ---------------------------------------------------------------------------
  // rbuffer_add

  /** `rbuffer_add`: append, then sort by number. */
  function Add<P>(s: Sequencer<P>, r: Numbered<P>): Sequencer<P> {
    s.(buffer := SortBy(s.buffer + [r], NumberKey))
  }

  /** On a sorted buffer, `rbuffer_add` inserts the new result after every buffered
      result with a number not above its own and before all greater ones: the
      buffer holds exactly one more item and stays sorted. */
  lemma AddInserts<P>(s: Sequencer<P>, r: Numbered<P>)
    requires SortedBy(s.buffer, NumberKey)
    ensures var b := Add(s, r).buffer; var k := Slot(s.buffer, r, NumberKey);
      && b == InsertBy(s.buffer, r, NumberKey)
      && b == s.buffer[..k] + [r] + s.buffer[k..]
      && (forall i :: 0 <= i < k ==> s.buffer[i].number <= r.number)
      && (forall i :: k <= i < |s.buffer| ==> r.number < s.buffer[i].number)
      && |b| == |s.buffer| + 1
      && multiset(b) == multiset(s.buffer) + multiset{r}
      && SortedBy(b, NumberKey)
  {
    var buf := s.buffer;
    assert (buf + [r])[..|buf|] == buf;
    SortOfSorted(buf, NumberKey);
    InsertAtSlot(buf, r, NumberKey);
    InsertKeepsSorted(buf, r, NumberKey);
    InsertMultiset(buf, r, NumberKey);
  }

  // ---------------------------------------------------------------------------
  // rbuffer_in_sequence

  /** `rbuffer_in_sequence`: `last_written` and the buffered numbers, once sorted,
      are `range(min, max + 1)`. */
  function InSequence<P>(lastWritten: int, buffer: seq<Numbered<P>>): bool {
    var t := [lastWritten] + Numbers(buffer);
    SortBy(t, IntKey) == Range(Min(t), Max(t) + 1)
  }

  lemma {:induction false} MinMaxOfSorted(s: seq<int>)
    requires |s| > 0 && SortedBy(s, IntKey)
    ensures Min(s) == s[0] && Max(s) == s[|s| - 1]
    decreases |s|
  {
    if |s| > 1 {
      MinMaxOfSorted(s[1..]);
      assert IntKey(s[0]) <= IntKey(s[1]);
      assert IntKey(s[0]) <= IntKey(s[|s| - 1]);
    }
  }

  lemma {:induction false} MinMaxBound(s: seq<int>)
    requires |s| > 0
    ensures forall i :: 0 <= i < |s| ==> Min(s) <= s[i] <= Max(s)
    decreases |s|
  {
    if |s| > 1 {
      MinMaxBound(s[1..]);
      forall i | 1 <= i < |s| ensures Min(s[1..]) <= s[i] <= Max(s[1..]) {
        assert s[i] == s[1..][i - 1];
      }
    }
  }

  lemma ChainSorted<P>(lastWritten: int, buffer: seq<Numbered<P>>)
    requires SortedBy(buffer, NumberKey)
    requires forall i :: 0 <= i < |buffer| ==> lastWritten < buffer[i].number
    ensures SortedBy([lastWritten] + Numbers(buffer), IntKey)
  {
    var t := [lastWritten] + Numbers(buffer);
    forall i, j | 0 <= i < j < |t| ensures IntKey(t[i]) <= IntKey(t[j]) {
      if i > 0 { assert NumberKey(buffer[i - 1]) <= NumberKey(buffer[j - 1]); }
    }
  }

  lemma RangeCons(a: int, ns: seq<int>)
    ensures ns == Range(a + 1, a + 1 + |ns|) <==> [a] + ns == Range(a, a + 1 + |ns|)
  {
    var t := [a] + ns;
    if t == Range(a, a + 1 + |ns|) {
      assert ns == t[1..];
    }
  }

  /** With every buffered number above `last_written` and the buffer sorted, the
      test holds exactly when the buffer is `last_written + 1 .. last_written + k`. */
  lemma InSequenceIff<P>(lastWritten: int, buffer: seq<Numbered<P>>)
    requires SortedBy(buffer, NumberKey)
    requires forall i :: 0 <= i < |buffer| ==> lastWritten < buffer[i].number
    ensures InSequence(lastWritten, buffer) <==>
            Numbers(buffer) == Range(lastWritten + 1, lastWritten + 1 + |buffer|)
  {
    ChainSorted(lastWritten, buffer);
    InSequenceOfSorted(lastWritten, buffer);
    RangeCons(lastWritten, Numbers(buffer));
  }

  /** When `[last_written] + numbers` is already sorted, the test compares it
      with the range of its own length. */
  lemma InSequenceOfSorted<P>(lastWritten: int, buffer: seq<Numbered<P>>)
    requires SortedBy([lastWritten] + Numbers(buffer), IntKey)
    ensures InSequence(lastWritten, buffer) <==>
            [lastWritten] + Numbers(buffer) == Range(lastWritten, lastWritten + 1 + |buffer|)
  {
    var t := [lastWritten] + Numbers(buffer);
    SortOfSorted(t, IntKey);
    MinMaxOfSorted(t);
    SortedRangeLength(t);
  }

  lemma SortedRangeLength(t: seq<int>)
    requires |t| > 0 && SortedBy(t, IntKey)
    ensures t == Range(t[0], t[|t| - 1] + 1) <==> t == Range(t[0], t[0] + |t|)
  {
    var top := t[|t| - 1];
    assert IntKey(t[0]) <= IntKey(top);
    if t == Range(t[0], t[0] + |t|) {
      assert top == t[0] + |t| - 1;
    }
  }

  /** Some number occurs twice. */
  predicate HasDuplicate(t: seq<int>) {
    exists v | v in t :: multiset(t)[v] >= 2
  }

  lemma {:induction false} DistinctCounts(s: seq<int>)
    requires forall i, j :: 0 <= i < j < |s| ==> s[i] != s[j]
    ensures forall v :: multiset(s)[v] <= 1
    decreases |s|
  {
    if s != [] {
      DistinctCounts(s[1..]);
      assert s == [s[0]] + s[1..];
      assert s[0] !in s[1..];
    }
  }

  /** A duplicate among `last_written` and the buffered numbers makes the test
      false: a range has no repeated element. */
  lemma DuplicateFailsTest<P>(lastWritten: int, buffer: seq<Numbered<P>>)
    requires HasDuplicate([lastWritten] + Numbers(buffer))
    ensures !InSequence(lastWritten, buffer)
  {
    var t := [lastWritten] + Numbers(buffer);
    DuplicateNotRange(t, Min(t), Max(t) + 1);
  }

  /** Sorting keeps a duplicate, and a range has none. */
  lemma DuplicateNotRange(t: seq<int>, lo: int, hi: int)
    requires HasDuplicate(t)
    ensures SortBy(t, IntKey) != Range(lo, hi)
  {
    SortByIsSortedPermutation(t, IntKey);
    DuplicateKept(t, SortBy(t, IntKey));
    RangeHasNoDuplicate(lo, hi);
  }

  lemma DuplicateKept(t: seq<int>, s: seq<int>)
    requires HasDuplicate(t) && multiset(s) == multiset(t)
    ensures HasDuplicate(s)
  {
    var v :| v in t && multiset(t)[v] >= 2;
    assert v in multiset(s);
  }

  lemma RangeHasNoDuplicate(lo: int, hi: int)
    ensures !HasDuplicate(Range(lo, hi))
  {
    DistinctCounts(Range(lo, hi));
  }

  // ---------------------------------------------------------------------------
  // append_pdf, write_pdf

  function Pages<P>(s: Sequencer<P>): seq<P> {
    if s.pdf.None? then [] else s.pdf.value
  }

  /** One pass of the `append_pdf` loop: create the document if needed, add the
      page, write the whole document, advance `last_written`. */
  function AppendOne<P>(s: Sequencer<P>, item: Numbered<P>, trailer: Trailer): Sequencer<P> {
    var pages := Pages(s) + [item.thing];
    s.(pdf := Some(pages),
       writes := s.writes + [Checkpoint(pages, trailer)],
       lastWritten := item.number,
       appended := s.appended + [item.number])
  }

  function AppendItems<P>(s: Sequencer<P>, items: seq<Numbered<P>>, trailer: Trailer): Sequencer<P>
    decreases |items|
  {
    if items == [] then s
    else AppendOne(AppendItems(s, items[..|items| - 1], trailer), items[|items| - 1], trailer)
  }

  lemma AppendItemsSnoc<P>(s: Sequencer<P>, items: seq<Numbered<P>>, x: Numbered<P>, trailer: Trailer)
    ensures AppendItems(s, items + [x], trailer) == AppendOne(AppendItems(s, items, trailer), x, trailer)
  {
    assert (items + [x])[..|items|] == items;
  }

  /** One more buffered item, as the `append_pdf` loop takes them. */
  lemma AppendItemsPrefix<P>(s: Sequencer<P>, items: seq<Numbered<P>>, k: nat, trailer: Trailer)
    requires k < |items|
    ensures AppendItems(s, items[..k + 1], trailer) == AppendOne(AppendItems(s, items[..k], trailer), items[k], trailer)
  {
    assert items[..k + 1] == items[..k] + [items[k]];
    AppendItemsSnoc(s, items[..k], items[k], trailer);
  }

  /** `append_pdf`: every buffered page in buffer order, then an empty buffer. */
  function Flush<P>(s: Sequencer<P>, trailer: Trailer): Sequencer<P> {
    AppendItems(s, s.buffer, trailer).(buffer := [])
  }

  lemma {:induction false} AppendItemsEffect<P>(s: Sequencer<P>, items: seq<Numbered<P>>, trailer: Trailer)
    ensures var r := AppendItems(s, items, trailer);
      && Pages(r) == Pages(s) + Things(items)
      && r.appended == s.appended + Numbers(items)
      && r.lastWritten == (if items == [] then s.lastWritten else items[|items| - 1].number)
      && r.buffer == s.buffer
      && (items != [] ==> r.pdf.Some?)
      && |r.writes| == |s.writes| + |items| && r.writes[..|s.writes|] == s.writes
      && forall j :: |s.writes| <= j < |r.writes| ==>
           r.writes[j] == Checkpoint(Pages(s) + Things(items[..j - |s.writes| + 1]), trailer)
    decreases |items|
  {
    if items != [] {
      var init := items[..|items| - 1];
      assert Things(items) == Things(init) + [items[|items| - 1].thing];
      assert Numbers(items) == Numbers(init) + [items[|items| - 1].number];
      assert items[..|items|] == items;
      forall j | 0 <= j <= |init| ensures init[..j] == items[..j] { }
      AppendItemsEffect(s, init, trailer);
    }
  }

  /** `append_pdf` appends the buffered pages in buffer order, one checkpoint per
      page, sets `last_written` to the last appended number and empties the buffer. */
  lemma FlushEffect<P>(s: Sequencer<P>, trailer: Trailer)
    ensures var r := Flush(s, trailer);
      && r.buffer == []
      && Pages(r) == Pages(s) + Things(s.buffer)
      && r.appended == s.appended + Numbers(s.buffer)
      && r.lastWritten == (if s.buffer == [] then s.lastWritten else s.buffer[|s.buffer| - 1].number)
      && |r.writes| == |s.writes| + |s.buffer| && r.writes[..|s.writes|] == s.writes
      && forall j :: |s.writes| <= j < |r.writes| ==>
           r.writes[j] == Checkpoint(Pages(s) + Things(s.buffer[..j - |s.writes| + 1]), trailer)
  {
    AppendItemsEffect(s, s.buffer, trailer);
  }

  // ---------------------------------------------------------------------------
  // process_result, run

  /** `process_result`. */
  function Process<P>(s: Sequencer<P>, r: Numbered<P>, trailer: Trailer): Sequencer<P> {
    var s1 := Add(s, r);
    if InSequence(s1.lastWritten, s1.buffer) then Flush(s1, trailer) else s1
  }

  /** The `run` loop over the results in arrival order. */
  function ProcessAll<P>(s: Sequencer<P>, rs: seq<Numbered<P>>, trailer: Trailer): Sequencer<P>
    decreases |rs|
  {
    if rs == [] then s else Process(ProcessAll(s, rs[..|rs| - 1], trailer), rs[|rs| - 1], trailer)
  }

  /** The state `run` starts from; earlier writes (files already on disk) stay. */
  function Start<P>(written: seq<Checkpoint<P>>): Sequencer<P> {
    Sequencer([], -1, None, written, [])
  }

  // ---------------------------------------------------------------------------
  // Every write is the whole document so far with the same trailer

  ghost predicate Checkpointed<P>(s: Sequencer<P>, base: seq<Checkpoint<P>>, trailer: Trailer) {
    && |s.writes| == |base| + |Pages(s)|
    && s.writes[..|base|] == base
    && forall j :: |base| <= j < |s.writes| ==> s.writes[j] == Checkpoint(Pages(s)[..j - |base| + 1], trailer)
  }

  lemma FlushKeepsCheckpoints<P>(s: Sequencer<P>, base: seq<Checkpoint<P>>, trailer: Trailer)
    requires Checkpointed(s, base, trailer)
    ensures Checkpointed(Flush(s, trailer), base, trailer)
  {
    FlushEffect(s, trailer);
    var s2 := Flush(s, trailer);
    var n := |Pages(s)|;
    var w := |base| + n;
    assert |s.writes| == w;
    forall j | |base| <= j < |s2.writes| ensures s2.writes[j] == Checkpoint(Pages(s2)[..j - |base| + 1], trailer) {
      if j < w {
        assert s2.writes[j] == s2.writes[..w][j];
        assert Pages(s2)[..j - |base| + 1] == Pages(s)[..j - |base| + 1];
      } else {
        var m := j - w;
        assert s2.writes[j] == Checkpoint(Pages(s) + Things(s.buffer[..m + 1]), trailer);
        assert Pages(s2)[..j - |base| + 1] == Pages(s) + Things(s.buffer[..m + 1]);
      }
    }
    assert s2.writes[..|base|] == s2.writes[..w][..|base|];
  }

  lemma ProcessKeepsCheckpoints<P>(s: Sequencer<P>, r: Numbered<P>, base: seq<Checkpoint<P>>, trailer: Trailer)
    requires Checkpointed(s, base, trailer)
    ensures Checkpointed(Process(s, r, trailer), base, trailer)
  {
    var s1 := Add(s, r);
    assert Checkpointed(s1, base, trailer);
    if InSequence(s1.lastWritten, s1.buffer) {
      FlushKeepsCheckpoints(s1, base, trailer);
    }
  }

  /** `write_pdf` runs once per appended page and each write holds the document
      so far, with Info and ID from the one metadata object. */
  lemma {:induction false} ProcessAllKeepsCheckpoints<P>(s: Sequencer<P>, rs: seq<Numbered<P>>, base: seq<Checkpoint<P>>, trailer: Trailer)
    requires Checkpointed(s, base, trailer)
    ensures Checkpointed(ProcessAll(s, rs, trailer), base, trailer)
    decreases |rs|
  {
    if rs != [] {
      ProcessAllKeepsCheckpoints(s, rs[..|rs| - 1], base, trailer);
      ProcessKeepsCheckpoints(ProcessAll(s, rs[..|rs| - 1], trailer), rs[|rs| - 1], base, trailer);
    }
  }

  lemma ProcessAllSnoc<P>(s: Sequencer<P>, rs: seq<Numbered<P>>, x: Numbered<P>, trailer: Trailer)
    ensures ProcessAll(s, rs + [x], trailer) == Process(ProcessAll(s, rs, trailer), x, trailer)
  {
    assert (rs + [x])[..|rs|] == rs;
  }

  /** One more result of a queue, as the `run` loop takes them. */
  lemma ProcessAllPrefix<P>(s: Sequencer<P>, rs: seq<Numbered<P>>, k: nat, trailer: Trailer)
    requires k < |rs|
    ensures ProcessAll(s, rs[..k + 1], trailer) == Process(ProcessAll(s, rs[..k], trailer), rs[k], trailer)
  {
    assert rs[..k + 1] == rs[..k] + [rs[k]];
    ProcessAllSnoc(s, rs[..k], rs[k], trailer);
  }

  lemma {:induction false} ProcessAllConcat<P>(s: Sequencer<P>, a: seq<Numbered<P>>, b: seq<Numbered<P>>, trailer: Trailer)
    ensures ProcessAll(s, a + b, trailer) == ProcessAll(ProcessAll(s, a, trailer), b, trailer)
    decreases |b|
  {
    if b == [] {
      assert a + b == a;
    } else {
      var init, x := b[..|b| - 1], b[|b| - 1];
      assert b == init + [x];
      assert a + b == (a + init) + [x];
      ProcessAllConcat(s, a, init, trailer);
      ProcessAllSnoc(s, a + init, x, trailer);
      ProcessAllSnoc(ProcessAll(s, a, trailer), init, x, trailer);
    }
  }

  lemma AddNumbers<P>(s: Sequencer<P>, r: Numbered<P>)
    ensures multiset(Numbers(Add(s, r).buffer)) == multiset(Numbers(s.buffer)) + multiset{r.number}
  {
    NumbersOfSort(s.buffer + [r]);
    assert Numbers(s.buffer + [r]) == Numbers(s.buffer) + [r.number];
  }

  // ---------------------------------------------------------------------------
  // A repeated number stalls the builder

  lemma DuplicateGrows(t: seq<int>, u: seq<int>)
    requires HasDuplicate(t) && multiset(t) <= multiset(u)
    ensures HasDuplicate(u)
  {
    var v :| v in t && multiset(t)[v] >= 2;
    assert v in multiset(u);
  }

  /** Once a number occurs twice among `last_written` and the buffer, nothing is
      appended or written again: every later result only joins the buffer. */
  lemma {:induction false} DuplicateStalls<P>(s: Sequencer<P>, rs: seq<Numbered<P>>, trailer: Trailer)
    requires HasDuplicate([s.lastWritten] + Numbers(s.buffer))
    ensures var r := ProcessAll(s, rs, trailer);
      && r.lastWritten == s.lastWritten && r.pdf == s.pdf
      && r.writes == s.writes && r.appended == s.appended
      && multiset(Numbers(r.buffer)) == multiset(Numbers(s.buffer)) + multiset(Numbers(rs))
      && HasDuplicate([r.lastWritten] + Numbers(r.buffer))
    decreases |rs|
  {
    if rs != [] {
      var init, x := rs[..|rs| - 1], rs[|rs| - 1];
      assert Numbers(rs) == Numbers(init) + [x.number];
      assert rs == init + [x];
      DuplicateStalls(s, init, trailer);
      var s0 := ProcessAll(s, init, trailer);
      var s1 := Add(s0, x);
      AddNumbers(s0, x);
      DuplicateGrows([s0.lastWritten] + Numbers(s0.buffer), [s1.lastWritten] + Numbers(s1.buffer));
      DuplicateFailsTest(s1.lastWritten, s1.buffer);
      ProcessAllSnoc(s, init, x, trailer);
    }
  }

  /** A result whose number equals `last_written`, or is already buffered, stalls
      the builder for good: what was written before it is all that is written. */
  lemma RepeatedNumberStalls<P>(s: Sequencer<P>, r: Numbered<P>, rs: seq<Numbered<P>>, trailer: Trailer)
    requires r.number == s.lastWritten || r.number in Numbers(s.buffer)
    ensures var f := ProcessAll(s, [r] + rs, trailer);
      f.lastWritten == s.lastWritten && f.pdf == s.pdf && f.writes == s.writes && f.appended == s.appended
  {
    var t := [s.lastWritten] + Numbers(s.buffer);
    var s1 := Add(s, r);
    var u := [s1.lastWritten] + Numbers(s1.buffer);
    AddNumbers(s, r);
    assert multiset(u) == multiset(t) + multiset{r.number};
    assert r.number in t;
    assert multiset(u)[r.number] >= 2;
    DuplicateFailsTest(s1.lastWritten, s1.buffer);
    assert ProcessAll(s, [r], trailer) == s1;
    DuplicateStalls(s1, rs, trailer);
    ProcessAllConcat(s, [r], rs, trailer);
  }

  /** A repeat of an earlier written number is not always stalled: with an empty
      buffer, the number just below `last_written` passes the test, so its page is
      appended and written again and `last_written` moves back. */
  lemma ReappendBelow<P>(s: Sequencer<P>, r: Numbered<P>, trailer: Trailer)
    requires s.buffer == [] && r.number == s.lastWritten - 1
    ensures Process(s, r, trailer) == AppendOne(s, r, trailer)
  {
    var lw := s.lastWritten;
    var a := Add(s, r);
    assert [] + [r] == [r];
    assert SortBy([r], NumberKey) == [r];
    assert a.buffer == [r];
    PairTest(lw, r);
    assert AppendItems(a, [r], trailer) == AppendOne(a, r, trailer);
  }

  lemma PairTest<P>(lw: int, r: Numbered<P>)
    requires r.number == lw - 1
    ensures InSequence(lw, [r])
  {
    var t := [lw] + Numbers([r]);
    assert t == [lw, lw - 1];
    assert t[..1] == [lw] && [lw][..0] == [];
    assert SortBy([lw], IntKey) == [lw];
    assert InsertBy([lw], lw - 1, IntKey) == [lw - 1, lw];
    assert SortBy(t, IntKey) == [lw - 1, lw];
    assert t[1..] == [lw - 1];
    assert Min(t) == lw - 1 && Max(t) == lw;
    assert Range(lw - 1, lw + 1) == [lw - 1, lw];
  }

  /** Arrivals 0, 1, 2 and then 1 again: the three pages are written, and the
      repeated 1 is appended as a fourth page with a fourth write, leaving
      `last_written` at 1. */
  lemma RepeatAfterComplete<P>(p0: P, p1: P, p2: P, q: P, trailer: Trailer)
    ensures var f := ProcessAll(Start([]), [Numbered(0, p0), Numbered(1, p1), Numbered(2, p2), Numbered(1, q)], trailer);
      && Pages(f) == [p0, p1, p2, q] && |f.writes| == 4 && f.lastWritten == 1 && f.buffer == []
  {
    var rs := [Numbered(0, p0), Numbered(1, p1), Numbered(2, p2)];
    var r := Numbered(1, q);
    assert rs + [r] == [Numbered(0, p0), Numbered(1, p1), Numbered(2, p2), Numbered(1, q)];
    InOrderThree(p0, p1, p2, trailer);
    ReappendBelow(ProcessAll(Start([]), rs, trailer), r, trailer);
    ProcessAllSnoc(Start([]), rs, r, trailer);
  }

  /** Arrivals 0, 1, 2 in order: three pages, three writes, an empty buffer. */
  lemma InOrderThree<P>(p0: P, p1: P, p2: P, trailer: Trailer)
    ensures var s := ProcessAll(Start([]), [Numbered(0, p0), Numbered(1, p1), Numbered(2, p2)], trailer);
      && Pages(s) == [p0, p1, p2] && |s.writes| == 3 && s.lastWritten == 2 && s.buffer == []
  {
    var rs := [Numbered(0, p0), Numbered(1, p1), Numbered(2, p2)];
    assert Numbers(rs) == [0, 1, 2];
    PermutationCompletes(rs, 3, [], trailer);
    PermutationWritesPages(rs, [p0, p1, p2], [], trailer);
  }

  // ---------------------------------------------------------------------------
  // A missing number stalls the builder below it

  lemma RangeBelowGap(t: seq<int>, k: int)
    requires |t| > 0 && t[0] < k && k !in t
    requires SortBy(t, IntKey) == Range(Min(t), Max(t) + 1)
    ensures forall i :: 0 <= i < |t| ==> t[i] < k
  {
    var lo, hi := Min(t), Max(t) + 1;
    SortedRange(t, lo, hi);
    RangeMembers(t, lo, hi);
    MinMaxBound(t);
    GapAbove(t, lo, hi, k);
  }

  lemma GapAbove(t: seq<int>, lo: int, hi: int, k: int)
    requires forall v :: lo <= v < hi ==> v in t
    requires k !in t && lo <= k
    ensures hi <= k
  {
    assert !(lo <= k < hi);
  }

  lemma SortedRange(t: seq<int>, lo: int, hi: int)
    requires SortBy(t, IntKey) == Range(lo, hi)
    ensures multiset(Range(lo, hi)) == multiset(t)
  {
    SortByIsSortedPermutation(t, IntKey);
  }

  lemma RangeMembers(t: seq<int>, lo: int, hi: int)
    requires multiset(Range(lo, hi)) == multiset(t)
    ensures forall v :: lo <= v < hi ==> v in t
  {
    var rg := Range(lo, hi);
    forall v | lo <= v < hi ensures v in t {
      assert rg[v - lo] == v;
      assert v in multiset(rg);
    }
  }

  /** When the test passes, every buffered number lies below any absent number
      above `last_written`. */
  lemma InSequenceBelowGap<P>(lastWritten: int, buffer: seq<Numbered<P>>, k: int)
    requires lastWritten < k && k !in Numbers(buffer)
    requires InSequence(lastWritten, buffer)
    ensures forall i :: 0 <= i < |buffer| ==> buffer[i].number < k
  {
    var t := [lastWritten] + Numbers(buffer);
    assert k !in t;
    RangeBelowGap(t, k);
    forall i | 0 <= i < |buffer| ensures buffer[i].number < k {
      assert t[i + 1] == buffer[i].number;
    }
  }

  lemma GapStep<P>(s: Sequencer<P>, x: Numbered<P>, k: int, trailer: Trailer)
    requires s.lastWritten < k && k !in Numbers(s.buffer) && x.number != k
    ensures var r := Process(s, x, trailer);
      && r.lastWritten < k && k !in Numbers(r.buffer)
      && |r.appended| >= |s.appended| && r.appended[..|s.appended|] == s.appended
      && forall i :: |s.appended| <= i < |r.appended| ==> r.appended[i] < k
  {
    var s1 := Add(s, x);
    AddNumbers(s, x);
    assert k !in multiset(Numbers(s1.buffer));
    if InSequence(s1.lastWritten, s1.buffer) {
      InSequenceBelowGap(s1.lastWritten, s1.buffer, k);
      FlushEffect(s1, trailer);
    }
  }

  /** A number above `last_written` that is neither buffered nor among the results
      still to come is never passed: `last_written` stays below it and every page
      appended from now on has a smaller number. */
  lemma {:induction false} GapStalls<P>(s: Sequencer<P>, rs: seq<Numbered<P>>, k: int, trailer: Trailer)
    requires s.lastWritten < k && k !in Numbers(s.buffer) && k !in Numbers(rs)
    ensures var r := ProcessAll(s, rs, trailer);
      && r.lastWritten < k
      && |r.appended| >= |s.appended| && r.appended[..|s.appended|] == s.appended
      && forall i :: |s.appended| <= i < |r.appended| ==> r.appended[i] < k
    decreases |rs|
  {
    if rs != [] {
      var init, x := rs[..|rs| - 1], rs[|rs| - 1];
      assert Numbers(rs) == Numbers(init) + [x.number];
      assert rs == init + [x];
      ProcessAllSnoc(s, init, x, trailer);
      GapStalls(s, init, k, trailer);
      var s0 := ProcessAll(s, init, trailer);
      assert k !in Numbers(s0.buffer) by {
        if k in Numbers(s0.buffer) {
          GapBuffer(s, init, k, trailer);
        }
      }
      GapStep(s0, x, k, trailer);
    }
  }

  lemma {:induction false} GapBuffer<P>(s: Sequencer<P>, rs: seq<Numbered<P>>, k: int, trailer: Trailer)
    requires k !in Numbers(s.buffer) && k !in Numbers(rs)
    ensures k !in Numbers(ProcessAll(s, rs, trailer).buffer)
    decreases |rs|
  {
    if rs != [] {
      var init, x := rs[..|rs| - 1], rs[|rs| - 1];
      assert Numbers(rs) == Numbers(init) + [x.number];
      assert rs == init + [x];
      ProcessAllSnoc(s, init, x, trailer);
      GapBuffer(s, init, k, trailer);
      var s0 := ProcessAll(s, init, trailer);
      AddNumbers(s0, x);
      assert k !in multiset(Numbers(Add(s0, x).buffer));
    }
  }

  // ---------------------------------------------------------------------------
  // All of 0 .. n-1, in any order, are written in order

  /** The numbers are 0 .. n-1, each exactly once. */
  predicate IsPermutationOfRange(ns: seq<int>, n: int) {
    && |ns| == n
    && (forall i :: 0 <= i < |ns| ==> 0 <= ns[i] < n)
    && (forall i, j :: 0 <= i < j < |ns| ==> ns[i] != ns[j])
  }

  /** What holds after the results `p` of a run over pages 0 .. n-1 were
      processed: the buffer is strictly increasing and above `last_written`,
      every processed result is either appended or buffered, and page `i` of the
      document is the page of result `i`. */
  ghost predicate Inv<P>(s: Sequencer<P>, p: seq<Numbered<P>>, n: int) {
    && -1 <= s.lastWritten
    && Increasing(s.buffer)
    && (forall i :: 0 <= i < |s.buffer| ==> s.lastWritten < s.buffer[i].number < n && s.buffer[i] in p)
    && |p| == s.lastWritten + 1 + |s.buffer|
    && s.appended == Range(0, s.lastWritten + 1)
    && |Pages(s)| == s.lastWritten + 1
    && (forall i :: 0 <= i < |Pages(s)| ==> Numbered(i, Pages(s)[i]) in p)
  }

  predicate Increasing<P>(buffer: seq<Numbered<P>>) {
    forall i, j :: 0 <= i < j < |buffer| ==> buffer[i].number < buffer[j].number
  }

  lemma InsertIncreasing<P>(buf: seq<Numbered<P>>, r: Numbered<P>)
    requires Increasing(buf)
    requires forall i :: 0 <= i < |buf| ==> buf[i].number != r.number
    ensures Increasing(InsertBy(buf, r, NumberKey))
    ensures forall i :: 0 <= i < |InsertBy(buf, r, NumberKey)| ==>
              InsertBy(buf, r, NumberKey)[i] == r || InsertBy(buf, r, NumberKey)[i] in buf
  {
    InsertAtSlot(buf, r, NumberKey);
    InsertedAt(buf, r, NumberKey);
    var b := InsertBy(buf, r, NumberKey);
    var k := Slot(buf, r, NumberKey);
    forall i, j | 0 <= i < j < |b| ensures b[i].number < b[j].number {
      if j < k {
        assert b[i] == buf[i] && b[j] == buf[j];
      } else if j == k {
        assert b[i] == buf[i];
        assert NumberKey(buf[i]) <= NumberKey(r);
      } else if i < k {
        assert b[i] == buf[i] && b[j] == buf[j - 1];
      } else if i == k {
        assert b[j] == buf[j - 1];
        assert NumberKey(r) < NumberKey(buf[k]);
      } else {
        assert b[i] == buf[i - 1] && b[j] == buf[j - 1];
      }
    }
  }

  /** Under `Inv`, every number up to `last_written` and every buffered number
      belongs to a result already seen. */
  lemma SeenNumbers<P>(s: Sequencer<P>, p: seq<Numbered<P>>, n: int)
    requires Inv(s, p, n)
    ensures forall i :: 0 <= i <= s.lastWritten ==> i in Numbers(p)
    ensures forall i :: 0 <= i < |s.buffer| ==> s.buffer[i].number in Numbers(p)
  {
    forall i | 0 <= i <= s.lastWritten ensures i in Numbers(p) {
      var page := Numbered(i, Pages(s)[i]);
      assert page in p;
      var j :| 0 <= j < |p| && p[j] == page;
      assert Numbers(p)[j] == i;
    }
    forall i | 0 <= i < |s.buffer| ensures s.buffer[i].number in Numbers(p) {
      var j :| 0 <= j < |p| && p[j] == s.buffer[i];
      assert Numbers(p)[j] == s.buffer[i].number;
    }
  }

  lemma AddKeepsInv<P>(s: Sequencer<P>, p: seq<Numbered<P>>, r: Numbered<P>, n: int)
    requires Inv(s, p, n) && 0 <= r.number < n
    requires r.number !in Numbers(p)
    ensures Inv(Add(s, r), p + [r], n)
  {
    var buf := s.buffer;
    SeenNumbers(s, p, n);
    assert Increasing(buf);
    assert SortedBy(buf, NumberKey);
    AddInserts(s, r);
    InsertIncreasing(buf, r);
    var b := Add(s, r).buffer;
    forall i | 0 <= i < |b| ensures s.lastWritten < b[i].number < n && b[i] in p + [r] {
      if b[i] != r {
        var j :| 0 <= j < |buf| && buf[j] == b[i];
      }
    }
  }

  lemma FlushKeepsInv<P>(s: Sequencer<P>, p: seq<Numbered<P>>, n: int, trailer: Trailer)
    requires Inv(s, p, n)
    requires Numbers(s.buffer) == Range(s.lastWritten + 1, s.lastWritten + 1 + |s.buffer|)
    ensures Inv(Flush(s, trailer), p, n)
  {
    FlushEffect(s, trailer);
    FlushedInv(s, Flush(s, trailer), p, n);
  }

  /** The invariant after appending a buffer that continues `last_written`, from
      what appending does to the pages, the numbers and `last_written`. */
  lemma FlushedInv<P>(s: Sequencer<P>, f: Sequencer<P>, p: seq<Numbered<P>>, n: int)
    requires Inv(s, p, n)
    requires Numbers(s.buffer) == Range(s.lastWritten + 1, s.lastWritten + 1 + |s.buffer|)
    requires f.buffer == [] && Pages(f) == Pages(s) + Things(s.buffer)
    requires f.appended == s.appended + Numbers(s.buffer)
    requires f.lastWritten == (if s.buffer == [] then s.lastWritten else s.buffer[|s.buffer| - 1].number)
    ensures Inv(f, p, n)
  {
    var lw := s.lastWritten;
    var buf := s.buffer;
    if buf != [] {
      assert Numbers(buf)[|buf| - 1] == lw + |buf|;
    }
    assert f.lastWritten == lw + |buf|;
    assert f.appended == Range(0, f.lastWritten + 1);
    forall i | 0 <= i < |Pages(f)| ensures Numbered(i, Pages(f)[i]) in p {
      if i > lw {
        var m := i - lw - 1;
        assert Numbers(buf)[m] == i;
        assert Pages(f)[i] == Things(buf)[m];
        assert Numbered(i, Pages(f)[i]) == buf[m];
      } else {
        assert Pages(f)[i] == Pages(s)[i];
      }
    }
  }

  lemma {:induction false} IncreasingFill(ns: seq<int>, a: int)
    requires forall i, j :: 0 <= i < j < |ns| ==> ns[i] < ns[j]
    requires forall i :: 0 <= i < |ns| ==> a <= ns[i] < a + |ns|
    ensures ns == Range(a, a + |ns|)
    decreases |ns|
  {
    if ns != [] {
      var init, last := ns[..|ns| - 1], ns[|ns| - 1];
      forall i | 0 <= i < |init| ensures a <= init[i] < a + |init| {
        assert init[i] < last;
      }
      IncreasingFill(init, a);
      if |init| > 0 {
        assert init[|init| - 1] == a + |init| - 1;
      }
      assert last == a + |init|;
      assert ns == init + [last];
    }
  }

  lemma ProcessKeepsInv<P>(s: Sequencer<P>, p: seq<Numbered<P>>, r: Numbered<P>, n: int, trailer: Trailer)
    requires Inv(s, p, n) && 0 <= r.number < n
    requires r.number !in Numbers(p)
    ensures Inv(Process(s, r, trailer), p + [r], n)
  {
    var s1 := Add(s, r);
    AddKeepsInv(s, p, r, n);
    if InSequence(s1.lastWritten, s1.buffer) {
      assert SortedBy(s1.buffer, NumberKey);
      InSequenceIff(s1.lastWritten, s1.buffer);
      FlushKeepsInv(s1, p + [r], n, trailer);
    }
  }

  /** Each result's number is in 0 .. n-1 and no number repeats. */
  predicate DistinctBelow<P>(p: seq<Numbered<P>>, n: int) {
    && (forall i :: 0 <= i < |p| ==> 0 <= p[i].number < n)
    && (forall i, j :: 0 <= i < j < |p| ==> p[i].number != p[j].number)
  }

  lemma PermutationDistinct<P>(rs: seq<Numbered<P>>, n: int)
    requires IsPermutationOfRange(Numbers(rs), n)
    ensures DistinctBelow(rs, n)
  {
    var ns := Numbers(rs);
    forall i, j | 0 <= i < j < |rs| ensures rs[i].number != rs[j].number {
      assert ns[i] != ns[j];
    }
  }

  /** Dropping the last result keeps the numbers distinct, and the last number
      was not seen before it. */
  lemma DistinctBelowInit<P>(p: seq<Numbered<P>>, n: int)
    requires p != [] && DistinctBelow(p, n)
    ensures DistinctBelow(p[..|p| - 1], n)
    ensures 0 <= p[|p| - 1].number < n && p[|p| - 1].number !in Numbers(p[..|p| - 1])
  {
    var init := p[..|p| - 1];
    forall i | 0 <= i < |init| ensures Numbers(init)[i] != p[|p| - 1].number {
      assert init[i] == p[i];
    }
  }

  lemma {:induction false} InvAll<P>(p: seq<Numbered<P>>, n: int, base: seq<Checkpoint<P>>, trailer: Trailer)
    requires DistinctBelow(p, n)
    ensures Inv(ProcessAll(Start(base), p, trailer), p, n)
    decreases |p|
  {
    if p == [] {
      assert Range(0, 0) == [];
    } else {
      var init, last := p[..|p| - 1], p[|p| - 1];
      assert init + [last] == p;
      DistinctBelowInit(p, n);
      InvAll(init, n, base, trailer);
      ProcessKeepsInv(ProcessAll(Start(base), init, trailer), init, last, n, trailer);
    }
  }

  /** The last of the n results makes the buffer `last_written + 1 .. n - 1`, so
      the test passes and everything is flushed. */
  lemma LastResultFlushes<P>(s: Sequencer<P>, p: seq<Numbered<P>>, r: Numbered<P>, n: int, trailer: Trailer)
    requires Inv(s, p, n) && |p| + 1 == n && 0 <= r.number < n
    requires r.number !in Numbers(p)
    ensures Process(s, r, trailer).buffer == []
    ensures Inv(Process(s, r, trailer), p + [r], n)
  {
    AddKeepsInv(s, p, r, n);
    ProcessFlushes(s, r, p + [r], n, trailer);
  }

  /** Once all n results are seen, the buffer holds exactly the numbers after
      `last_written`, and the test passes. */
  lemma AllSeenFills<P>(s: Sequencer<P>, p: seq<Numbered<P>>, n: int)
    requires Inv(s, p, n) && |p| == n
    ensures Numbers(s.buffer) == Range(s.lastWritten + 1, s.lastWritten + 1 + |s.buffer|)
    ensures SortedBy(s.buffer, NumberKey)
    ensures forall i :: 0 <= i < |s.buffer| ==> s.lastWritten < s.buffer[i].number
  {
    IncreasingFill(Numbers(s.buffer), s.lastWritten + 1);
  }

  /** A sorted buffer holding exactly the numbers after `last_written` passes the test. */
  lemma RangePasses<P>(lw: int, buffer: seq<Numbered<P>>)
    requires SortedBy(buffer, NumberKey)
    requires forall i :: 0 <= i < |buffer| ==> lw < buffer[i].number
    requires Numbers(buffer) == Range(lw + 1, lw + 1 + |buffer|)
    ensures InSequence(lw, buffer)
  {
    InSequenceIff(lw, buffer);
  }

  /** When the test passes, `process_result` adds and then appends everything. */
  lemma ProcessFlushes<P>(s: Sequencer<P>, r: Numbered<P>, p: seq<Numbered<P>>, n: int, trailer: Trailer)
    requires Inv(Add(s, r), p, n) && |p| == n
    ensures Process(s, r, trailer) == Flush(Add(s, r), trailer)
    ensures Inv(Flush(Add(s, r), trailer), p, n)
  {
    var a := Add(s, r);
    AllSeenFills(a, p, n);
    RangePasses(a.lastWritten, a.buffer);
    FlushKeepsInv(a, p, n, trailer);
  }

  /** When the results carry each of 0 .. n-1 exactly once, in any arrival order,
      the run ends with an empty buffer, `last_written == n - 1`, the pages
      appended in number order (page `i` of the document is the page of result
      `i`), and one checkpoint per page, each a prefix of the final document. */
  lemma PermutationCompletes<P>(rs: seq<Numbered<P>>, n: int, base: seq<Checkpoint<P>>, trailer: Trailer)
    requires IsPermutationOfRange(Numbers(rs), n)
    ensures var s := ProcessAll(Start(base), rs, trailer);
      && s.buffer == []
      && s.lastWritten == n - 1
      && s.appended == Range(0, n)
      && |Pages(s)| == n
      && (forall i :: 0 <= i < n ==> Numbered(i, Pages(s)[i]) in rs)
      && Checkpointed(s, base, trailer)
  {
    if n > 0 {
      var p, r := rs[..n - 1], rs[n - 1];
      assert rs == p + [r];
      PermutationDistinct(rs, n);
      DistinctBelowInit(rs, n);
      InvAll(p, n, base, trailer);
      ProcessAllSnoc(Start(base), p, r, trailer);
      LastResultFlushes(ProcessAll(Start(base), p, trailer), p, r, n, trailer);
    } else {
      assert rs == [];
    }
    ProcessAllKeepsCheckpoints(Start(base), rs, base, trailer);
  }

  /** When result `i` carries `pages[i]`, the run writes exactly `pages`, in order,
      one checkpoint per page, whatever the arrival order. */
  lemma PermutationWritesPages<P>(rs: seq<Numbered<P>>, pages: seq<P>, base: seq<Checkpoint<P>>, trailer: Trailer)
    requires IsPermutationOfRange(Numbers(rs), |pages|)
    requires forall i :: 0 <= i < |rs| ==> rs[i].thing == pages[rs[i].number]
    ensures Pages(ProcessAll(Start(base), rs, trailer)) == pages
    ensures |ProcessAll(Start(base), rs, trailer).writes| == |base| + |pages|
    ensures Checkpointed(ProcessAll(Start(base), rs, trailer), base, trailer)
  {
    PermutationCompletes(rs, |pages|, base, trailer);
    var f := ProcessAll(Start(base), rs, trailer);
    forall i | 0 <= i < |pages| ensures Pages(f)[i] == pages[i] {
      var j :| 0 <= j < |rs| && rs[j] == Numbered(i, Pages(f)[i]);
      assert Numbers(rs)[j] == i;
    }
  }

  /** A result that leaves a hole after `last_written` is only buffered. */
  lemma ProcessHolds<P>(s: Sequencer<P>, r: Numbered<P>, trailer: Trailer)
    requires SortedBy(s.buffer, NumberKey)
    requires forall i :: 0 <= i < |s.buffer| ==> s.lastWritten < s.buffer[i].number
    requires s.lastWritten < r.number
    requires Numbers(InsertBy(s.buffer, r, NumberKey)) != Range(s.lastWritten + 1, s.lastWritten + 2 + |s.buffer|)
    ensures Process(s, r, trailer) == s.(buffer := InsertBy(s.buffer, r, NumberKey))
  {
    HoleFailsTest(s.lastWritten, s.buffer, r);
    AddIsInsert(s, r);
  }

  lemma AddIsInsert<P>(s: Sequencer<P>, r: Numbered<P>)
    requires SortedBy(s.buffer, NumberKey)
    ensures Add(s, r) == s.(buffer := InsertBy(s.buffer, r, NumberKey))
  {
    assert (s.buffer + [r])[..|s.buffer|] == s.buffer;
    SortOfSorted(s.buffer, NumberKey);
  }

  lemma HoleFailsTest<P>(lw: int, buf: seq<Numbered<P>>, r: Numbered<P>)
    requires SortedBy(buf, NumberKey)
    requires forall i :: 0 <= i < |buf| ==> lw < buf[i].number
    requires lw < r.number
    requires Numbers(InsertBy(buf, r, NumberKey)) != Range(lw + 1, lw + 2 + |buf|)
    ensures !InSequence(lw, InsertBy(buf, r, NumberKey))
  {
    var b := InsertBy(buf, r, NumberKey);
    InsertedAt(buf, r, NumberKey);
    InsertKeepsSorted(buf, r, NumberKey);
    InsertAbove(buf, r, lw);
    InSequenceIff(lw, b);
  }

  /** Inserting a number above `lw` into numbers above `lw` keeps them all above it. */
  lemma InsertAbove<P>(buf: seq<Numbered<P>>, r: Numbered<P>, lw: int)
    requires forall i :: 0 <= i < |buf| ==> lw < buf[i].number
    requires lw < r.number
    ensures forall i :: 0 <= i < |InsertBy(buf, r, NumberKey)| ==> lw < InsertBy(buf, r, NumberKey)[i].number
  {
    InsertedAt(buf, r, NumberKey);
    var b := InsertBy(buf, r, NumberKey);
    var k := Slot(buf, r, NumberKey);
    forall i | 0 <= i < |b| ensures lw < b[i].number {
      if i < k {
        assert b[i] == buf[i];
      } else if i > k {
        assert b[i] == buf[i - 1];
      }
    }
  }

  /** From a fresh sequencer that has only buffered `b`, a result that leaves a
      hole after `last_written` is only buffered too. */
  lemma BufferStep<P>(rs: seq<Numbered<P>>, r: Numbered<P>, b: seq<Numbered<P>>, trailer: Trailer)
    requires ProcessAll(Start([]), rs, trailer) == Start([]).(buffer := b)
    requires SortedBy(b, NumberKey) && forall i :: 0 <= i < |b| ==> 0 <= b[i].number
    requires 0 <= r.number
    requires Numbers(InsertBy(b, r, NumberKey)) != Range(0, 1 + |b|)
    ensures ProcessAll(Start([]), rs + [r], trailer) == Start([]).(buffer := InsertBy(b, r, NumberKey))
  {
    ProcessHolds(Start([]).(buffer := b), r, trailer);
    ProcessAllSnoc(Start([]), rs, r, trailer);
  }

  lemma WaitForTwo<P>(p2: P, trailer: Trailer)
    ensures ProcessAll(Start([]), [Numbered(2, p2)], trailer) == Start([]).(buffer := [Numbered(2, p2)])
  {
    var n2 := Numbered(2, p2);
    assert [] + [n2] == [n2];
    assert InsertBy([], n2, NumberKey) == [n2];
    assert Numbers([n2])[0] != Range(0, 1)[0];
    BufferStep([], n2, [], trailer);
  }

  lemma WaitForZero<P>(p0: P, p2: P, trailer: Trailer)
    ensures ProcessAll(Start([]), [Numbered(2, p2), Numbered(0, p0)], trailer)
         == Start([]).(buffer := [Numbered(0, p0), Numbered(2, p2)])
  {
    var n0, n2 := Numbered(0, p0), Numbered(2, p2);
    assert [n2] + [n0] == [n2, n0];
    InsertZero(p0, p2);
    WaitForTwo(p2, trailer);
    BufferStep([n2], n0, [n2], trailer);
  }

  lemma InsertZero<P>(p0: P, p2: P)
    ensures InsertBy([Numbered(2, p2)], Numbered(0, p0), NumberKey) == [Numbered(0, p0), Numbered(2, p2)]
    ensures Numbers([Numbered(0, p0), Numbered(2, p2)]) != Range(0, 2)
  {
    assert Numbers([Numbered(0, p0), Numbered(2, p2)])[1] != Range(0, 2)[1];
  }

  /** Results 2, 0 and 3 of a four-page run: nothing is written while result 1
      is missing; all three wait in the buffer in number order. */
  lemma OutOfOrderWaits<P>(p0: P, p2: P, p3: P, trailer: Trailer)
    ensures var f := ProcessAll(Start([]), [Numbered(2, p2), Numbered(0, p0), Numbered(3, p3)], trailer);
      && f.writes == [] && f.pdf == None && f.lastWritten == -1
      && f.buffer == [Numbered(0, p0), Numbered(2, p2), Numbered(3, p3)]
  {
    var n0, n2, n3 := Numbered(0, p0), Numbered(2, p2), Numbered(3, p3);
    assert [n2, n0] + [n3] == [n2, n0, n3];
    InsertThree(p0, p2, p3);
    WaitForZero(p0, p2, trailer);
    BufferStep([n2, n0], n3, [n0, n2], trailer);
  }

  lemma InsertThree<P>(p0: P, p2: P, p3: P)
    ensures InsertBy([Numbered(0, p0), Numbered(2, p2)], Numbered(3, p3), NumberKey)
         == [Numbered(0, p0), Numbered(2, p2), Numbered(3, p3)]
    ensures Numbers([Numbered(0, p0), Numbered(2, p2), Numbered(3, p3)]) != Range(0, 3)
  {
    var n0, n2, n3 := Numbered(0, p0), Numbered(2, p2), Numbered(3, p3);
    assert [n0, n2][1..] == [n2];
    assert InsertBy([n2], n3, NumberKey) == [n2, n3];
    assert Numbers([n0, n2, n3])[1] != Range(0, 3)[1];
  }

  /** Results 2, 0, 3, 1 of a four-page run: once result 1 arrives all four pages
      go out in order, one write each. */
  lemma OutOfOrderCompletes<P>(p0: P, p1: P, p2: P, p3: P, trailer: Trailer)
    ensures var f := ProcessAll(Start([]), [Numbered(2, p2), Numbered(0, p0), Numbered(3, p3), Numbered(1, p1)], trailer);
      && Pages(f) == [p0, p1, p2, p3] && |f.writes| == 4
  {
    var rs := [Numbered(2, p2), Numbered(0, p0), Numbered(3, p3), Numbered(1, p1)];
    assert Numbers(rs) == [2, 0, 3, 1];
    PermutationWritesPages(rs, [p0, p1, p2, p3], [], trailer);
  }
}
