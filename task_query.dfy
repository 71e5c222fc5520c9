/** The owner-scoped list query: filters, ordering and the offset/limit window. */
module TaskQuery {
  import opened Wrappers
  import opened TaskStatus
  import opened LabelSet
  import opened TaskModel

  datatype SortOrder = ASC | DESC

  /** Query parameters of a list request. The sort column is abstracted to an
      integer key that orders tasks as the column's values do. */
  datatype FindTaskParams = FindTaskParams(
    status: Option<Status>,
    search: Option<string>,
    labels: Option<seq<string>>,
    sortBy: Task -> int,
    sortOrder: SortOrder)

  datatype PaginationParams = PaginationParams(offset: nat, limit: nat)

  // ---------------------------------------------------------------- search term

  /** The characters `String.prototype.trim` strips: ECMAScript white space and
      line terminators. */
  predicate IsWhitespace(c: char) {
    var n := c as int;
    n == 0x09 || n == 0x0A || n == 0x0B || n == 0x0C || n == 0x0D || n == 0x20 ||
    n == 0xA0 || n == 0x1680 || (0x2000 <= n <= 0x200A) || n == 0x2028 || n == 0x2029 ||
    n == 0x202F || n == 0x205F || n == 0x3000 || n == 0xFEFF
  }

  function TrimStart(s: string): (r: string)
    ensures |r| <= |s| && r == s[|s| - |r|..]
    ensures r == [] || !IsWhitespace(r[0])
    ensures forall i | 0 <= i < |s| - |r| :: IsWhitespace(s[i])
  {
    if s != [] && IsWhitespace(s[0]) then TrimStart(s[1..]) else s
  }

  function TrimEnd(s: string): (r: string)
    ensures |r| <= |s| && r == s[..|r|]
    ensures r == [] || !IsWhitespace(r[|r| - 1])
    ensures forall i | |r| <= i < |s| :: IsWhitespace(s[i])
  {
    if s != [] && IsWhitespace(s[|s| - 1]) then TrimEnd(s[..|s| - 1]) else s
  }

  function Trim(s: string): string {
    TrimEnd(TrimStart(s))
  }

  /** A search term trims to the empty string exactly when it is all white space. */
  lemma TrimEmptyIffBlank(s: string)
    ensures Trim(s) == [] <==> forall i | 0 <= i < |s| :: IsWhitespace(s[i])
  {
    var t := TrimStart(s);
    if Trim(s) == [] {
      assert t == [];
    } else if t != [] {
      assert !IsWhitespace(t[0]) && t[0] == s[|s| - |t|];
    }
  }

  /** ASCII lower-casing; the case folding of other scripts is not modelled. */
  function ToLower(c: char): char {
    if 'A' <= c <= 'Z' then (c as int + 32) as char else c
  }

  function FoldCase(s: string): (r: string)
    ensures |r| == |s| && forall i | 0 <= i < |s| :: r[i] == ToLower(s[i])
    ensures forall i | 0 <= i < |r| :: !('A' <= r[i] <= 'Z')
  {
    seq(|s|, i requires 0 <= i < |s| => ToLower(s[i]))
  }

  /** Text without upper-case letters is already folded. */
  lemma FoldCaseOfFolded(s: string)
    requires forall i | 0 <= i < |s| :: !('A' <= s[i] <= 'Z')
    ensures FoldCase(s) == s
  {
    var r := FoldCase(s);
    forall i | 0 <= i < |s| ensures r[i] == s[i] {
      assert r[i] == ToLower(s[i]);
    }
  }

  /** Folding twice is folding once. */
  lemma FoldCaseIdempotent(s: string)
    ensures FoldCase(FoldCase(s)) == FoldCase(s)
  {
    FoldCaseOfFolded(FoldCase(s));
  }

  /** `term` occurs as a contiguous piece of `text`. */
  predicate ContainsSubstring(text: string, term: string) {
    term <= text || (text != [] && ContainsSubstring(text[1..], term))
  }

  predicate OccursAt(text: string, term: string, k: int) {
    0 <= k <= |text| - |term| && text[k..k + |term|] == term
  }

  /** The recursive substring test agrees with the positional definition. */
  lemma {:induction false} ContainsSubstringAt(text: string, term: string)
    ensures ContainsSubstring(text, term) <==> exists k :: OccursAt(text, term, k)
  {
    if ContainsSubstring(text, term) {
      var k := SubstringPosition(text, term);
    }
    if exists k :: OccursAt(text, term, k) {
      var k :| OccursAt(text, term, k);
      OccursAtContains(text, term, k);
    }
  }

  lemma {:induction false} SubstringPosition(text: string, term: string) returns (k: int)
    requires ContainsSubstring(text, term)
    ensures OccursAt(text, term, k)
  {
    if term <= text {
      k := 0;
    } else {
      var j := SubstringPosition(text[1..], term);
      k := j + 1;
      assert text[1..][j..j + |term|] == text[k..k + |term|];
    }
  }

  lemma {:induction false} OccursAtContains(text: string, term: string, k: int)
    requires OccursAt(text, term, k)
    ensures ContainsSubstring(text, term)
  {
    if k == 0 {
      assert term <= text;
    } else {
      assert text[1..][k - 1..k - 1 + |term|] == text[k..k + |term|];
      OccursAtContains(text[1..], term, k - 1);
    }
  }

  /** `text ILIKE '%term%'`: a case-insensitive substring test. */
  predicate ILikeContains(text: string, term: string) {
    ContainsSubstring(FoldCase(text), FoldCase(term))
  }

  /** ILIKE does not see case: folding either side first changes nothing. */
  lemma ILikeIgnoresCase(text: string, term: string)
    ensures ILikeContains(text, term) <==> ILikeContains(FoldCase(text), FoldCase(term))
    ensures ILikeContains(text, term) <==> ILikeContains(FoldCase(text), term)
    ensures ILikeContains(text, term) <==> ILikeContains(text, FoldCase(term))
  {
    FoldCaseIdempotent(text);
    FoldCaseIdempotent(term);
  }

  // ---------------------------------------------------------------- filters

  predicate OwnedBy(t: Task, userId: UserId) {
    t.userId == userId
  }

  /** The status filter applies only when a status is given, and then by equality. */
  predicate StatusFilter(t: Task, status: Option<Status>) {
    status.Some? ==> t.status == status.value
  }

  /** The search filter is switched on by a term that is not blank. */
  predicate SearchActive(search: Option<string>) {
    search.Some? && Trim(search.value) != []
  }

  /** The search filter applies only when the trimmed term is non-empty; the
      pattern itself uses the untrimmed term. */
  predicate SearchFilter(t: Task, search: Option<string>) {
    SearchActive(search) ==>
      ILikeContains(t.title, search.value) || ILikeContains(t.description, search.value)
  }

  /** The label filter applies only to a non-empty list of names, and then asks
      for at least one label whose name is in it. */
  predicate LabelFilter(t: Task, names: Option<seq<string>>) {
    names.Some? && |names.value| > 0 ==>
      exists l | l in t.labels :: l.name in names.value
  }

  /** The intended filter: every condition is one conjunct, the search
      condition with its OR grouped. */
  predicate Matches(t: Task, filters: FindTaskParams, userId: UserId) {
    && OwnedBy(t, userId)
    && StatusFilter(t, filters.status)
    && SearchFilter(t, filters.search)
    && LabelFilter(t, filters.labels)
  }

  /** The WHERE clause the query builder emits, read with SQL precedence. The
      search condition `title ILIKE p OR description ILIKE p` is joined with
      AND and no parentheses, so AND ties the owner and status tests to the
      title test only, and the label test to the description test only. */
  predicate MatchesAsWritten(t: Task, filters: FindTaskParams, userId: UserId) {
    if SearchActive(filters.search) then
      || (OwnedBy(t, userId) && StatusFilter(t, filters.status) && ILikeContains(t.title, filters.search.value))
      || (ILikeContains(t.description, filters.search.value) && LabelFilter(t, filters.labels))
    else
      OwnedBy(t, userId) && StatusFilter(t, filters.status) && LabelFilter(t, filters.labels)
  }

  /** Without a search term the emitted clause is the intended one, and with
      one it still admits every intended match. */
  lemma AsWrittenCoversIntended(t: Task, filters: FindTaskParams, userId: UserId)
    ensures !SearchActive(filters.search) ==> (MatchesAsWritten(t, filters, userId) <==> Matches(t, filters, userId))
    ensures Matches(t, filters, userId) ==> MatchesAsWritten(t, filters, userId)
  {
  }

  /** The tasks of `rows` that the emitted clause admits, in stored order. */
  function MatchingAsWritten(rows: seq<Task>, filters: FindTaskParams, userId: UserId): (r: seq<Task>)
    ensures |r| <= |rows|
  {
    if rows == [] then []
    else (if MatchesAsWritten(rows[0], filters, userId) then [rows[0]] else []) + MatchingAsWritten(rows[1..], filters, userId)
  }

  /** The emitted clause lets another user's task through: bob's task whose
      description mentions the term is listed, and counted, for alice. */
  lemma SearchLeaksOtherUsersTasks()
    ensures var bobs := Task(1, "x", "urgent fix", OPEN, "bob", []);
      var filters := FindTaskParams(None, Some("urgent"), None, (t: Task) => t.id, ASC);
      && MatchingAsWritten([bobs], filters, "alice") == [bobs]
      && Matching([bobs], filters, "alice") == []
  {
    var bobs := Task(1, "x", "urgent fix", OPEN, "bob", []);
    var filters := FindTaskParams(None, Some("urgent"), None, (t: Task) => t.id, ASC);
    var term := "urgent";
    assert !IsWhitespace(term[0]);
    TrimEmptyIffBlank(term);
    assert SearchActive(filters.search);
    FoldCaseOfFolded(term);
    FoldCaseOfFolded(bobs.description);
    FoldCaseOfFolded(bobs.title);
    OccursAtContains(bobs.description, term, 0);
    assert ILikeContains(bobs.description, term);
    ContainsSubstringAt(bobs.title, term);
    assert !ILikeContains(bobs.title, term);
    assert MatchesAsWritten(bobs, filters, "alice");
    assert !Matches(bobs, filters, "alice");
    assert [bobs][1..] == [];
  }

  /** The tasks of `rows` that pass every filter, in their stored order. */
  function Matching(rows: seq<Task>, filters: FindTaskParams, userId: UserId): (r: seq<Task>)
    ensures |r| <= |rows|
  {
    if rows == [] then []
    else (if Matches(rows[0], filters, userId) then [rows[0]] else []) + Matching(rows[1..], filters, userId)
  }

  /** A task is among the matches exactly when it is stored and passes every filter. */
  lemma {:induction false} MatchingMembers(rows: seq<Task>, filters: FindTaskParams, userId: UserId)
    ensures forall t :: t in Matching(rows, filters, userId) <==> t in rows && Matches(t, filters, userId)
  {
    if rows != [] {
      MatchingMembers(rows[1..], filters, userId);
      assert forall t | t in rows :: t == rows[0] || t in rows[1..];
    }
  }

  /** Matching keeps the stored order: it distributes over concatenation. */
  lemma {:induction false} MatchingKeepsOrder(a: seq<Task>, b: seq<Task>, filters: FindTaskParams, userId: UserId)
    ensures Matching(a + b, filters, userId) == Matching(a, filters, userId) + Matching(b, filters, userId)
  {
    if a != [] {
      assert (a + b)[0] == a[0] && (a + b)[1..] == a[1..] + b;
      MatchingKeepsOrder(a[1..], b, filters, userId);
      var head := if Matches(a[0], filters, userId) then [a[0]] else [];
      calc {
        Matching(a + b, filters, userId);
        head + Matching(a[1..] + b, filters, userId);
        head + (Matching(a[1..], filters, userId) + Matching(b, filters, userId));
        (head + Matching(a[1..], filters, userId)) + Matching(b, filters, userId);
        Matching(a, filters, userId) + Matching(b, filters, userId);
      }
    } else {
      assert a + b == b;
    }
  }

  // ---------------------------------------------------------------- ordering

  /** `a` may come before `b` in the requested direction. */
  predicate InOrder(a: Task, b: Task, key: Task -> int, order: SortOrder) {
    if order == ASC then key(a) <= key(b) else key(b) <= key(a)
  }

  predicate SortedBy(s: seq<Task>, key: Task -> int, order: SortOrder) {
    forall i, j | 0 <= i < j < |s| :: InOrder(s[i], s[j], key, order)
  }

  /** A sorted list with an element in front that may precede all of it is sorted. */
  lemma SortedCons(h: Task, t: seq<Task>, key: Task -> int, order: SortOrder)
    requires SortedBy(t, key, order)
    requires forall y | y in t :: InOrder(h, y, key, order)
    ensures SortedBy([h] + t, key, order)
  {
    var s := [h] + t;
    forall i, j | 0 <= i < j < |s| ensures InOrder(s[i], s[j], key, order) {
      assert s[j] == t[j - 1] && s[j] in t;
      if i > 0 {
        assert s[i] == t[i - 1];
      }
    }
  }

  function Insert(x: Task, s: seq<Task>, key: Task -> int, order: SortOrder): (r: seq<Task>)
    requires SortedBy(s, key, order)
    ensures SortedBy(r, key, order)
    ensures multiset(r) == multiset(s) + multiset{x}
  {
    if s == [] then [x]
    else if InOrder(x, s[0], key, order) then
      assert forall y | y in s :: InOrder(x, y, key, order) by {
        forall y | y in s ensures InOrder(x, y, key, order) {
          var k :| 0 <= k < |s| && s[k] == y;
          assert k == 0 || InOrder(s[0], s[k], key, order);
        }
      }
      SortedCons(x, s, key, order);
      [x] + s
    else
      var rest := Insert(x, s[1..], key, order);
      assert s == [s[0]] + s[1..];
      assert forall y | y in rest :: InOrder(s[0], y, key, order) by {
        forall y | y in rest ensures InOrder(s[0], y, key, order) {
          assert y in multiset(rest);
          if y != x {
            var k :| 0 <= k < |s[1..]| && s[1..][k] == y;
            assert s[k + 1] == y;
          }
        }
      }
      SortedCons(s[0], rest, key, order);
      [s[0]] + rest
  }

  /** The matching tasks ordered by the sort key; the model makes no claim about
      the relative order of tasks with equal keys. */
  function OrderBy(s: seq<Task>, key: Task -> int, order: SortOrder): (r: seq<Task>)
    ensures SortedBy(r, key, order)
    ensures multiset(r) == multiset(s)
  {
    if s == [] then []
    else
      assert s == [s[0]] + s[1..];
      Insert(s[0], OrderBy(s[1..], key, order), key, order)
  }

  // ---------------------------------------------------------------- window

  function Min(a: int, b: int): int {
    if a <= b then a else b
  }

  /** `skip(offset).take(limit)`: at most `limit` elements starting at `offset`. */
  function Window<T>(s: seq<T>, offset: nat, limit: nat): (r: seq<T>)
    ensures |r| == if offset >= |s| then 0 else Min(limit, |s| - offset)
    ensures forall k | 0 <= k < |r| :: r[k] == s[offset + k]
  {
    if offset >= |s| then [] else s[offset..offset + Min(limit, |s| - offset)]
  }

  /** A window of a sorted list is sorted and holds only elements of the list. */
  lemma WindowOfSorted(s: seq<Task>, offset: nat, limit: nat, key: Task -> int, order: SortOrder)
    requires SortedBy(s, key, order)
    ensures SortedBy(Window(s, offset, limit), key, order)
    ensures forall t | t in Window(s, offset, limit) :: t in s
  {
    var w := Window(s, offset, limit);
    forall t | t in w ensures t in s {
      var k :| 0 <= k < |w| && w[k] == t;
      assert s[offset + k] == t;
    }
    forall i, j | 0 <= i < j < |w| ensures InOrder(w[i], w[j], key, order) {
      assert w[i] == s[offset + i] && w[j] == s[offset + j];
    }
  }
}
