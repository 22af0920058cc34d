/** Values and helpers shared by every service: optional values, the error
    envelope, the persistence engine's failure kinds, the JavaScript string
    operations the services call, fresh row identifiers and ordering. */
module Common {

  /** Surrogate row identifier (a string in the database). */
  type Id = string

  datatype Option<+T> = None | Some(value: T) {
    function GetOr(default: T): T {
      match this
      case Some(v) => v
      case None => default
    }
  }

  /** The exceptions a service call ends with. `NotFound` and `BadRequest` are
      the framework's HTTP exceptions; `ServerError` is a plain error a
      service throws itself, and `Unhandled` an engine failure that a service
      lets escape. */
  datatype Error =
    | NotFound(message: string)
    | BadRequest(message: string)
    | ServerError(message: string)
    | Unhandled(cause: Fault)

  datatype Result<+T> = Ok(value: T) | Err(error: Error)

  /** What the persistence engine can report from inside a query or a
      transaction: a unique-constraint violation (P2002), a record required by
      an update or delete that is missing (P2025), or anything else. */
  datatype Fault = UniqueViolation | RecordMissing | OtherFault(message: string)

  // ---------------------------------------------------------------------
  // JavaScript truthiness and defaulting

  /** `s` is truthy: present and not the empty string. */
  predicate Truthy(s: Option<string>) {
    s.Some? && s.value != ""
  }

  /** `s || d` for an optional string. */
  function OrDefault(s: Option<string>, d: string): (r: string)
    ensures Truthy(s) ==> r == s.value
    ensures !Truthy(s) ==> r == d
  {
    if s.Some? && s.value != "" then s.value else d
  }

  /** `s || null` for an optional string: the empty string becomes null. */
  function OrNull(s: Option<string>): (r: Option<string>)
    ensures r.Some? <==> Truthy(s)
    ensures r.Some? ==> r == s
  {
    if s.Some? && s.value != "" then s else None
  }

  /** `b !== false`: true unless explicitly false. */
  function NotFalse(b: Option<bool>): (r: bool)
    ensures r <==> b != Some(false)
  {
    match b
    case Some(v) => v
    case None => true
  }

  /** `b || false`: false unless explicitly true. */
  function OrFalse(b: Option<bool>): (r: bool)
    ensures r <==> b == Some(true)
  {
    match b
    case Some(v) => v
    case None => false
  }

  /** Prisma's handling of `undefined` in update data: an absent value leaves
      the stored one in place. */
  function Keep<T>(update: Option<T>, stored: T): (r: T)
    ensures update.Some? ==> r == update.value
    ensures update.None? ==> r == stored
  {
    match update
    case Some(v) => v
    case None => stored
  }

  // ---------------------------------------------------------------------
  // String.prototype.trim, toLowerCase, startsWith, includes

  /** The characters ECMAScript's `trim` removes: WhiteSpace and LineTerminator. */
  predicate IsJsSpace(c: char) {
    c == ' ' || c == '\t' || c == '\n' || c == '\r' || c == '\U{B}' || c == '\U{C}'
    || c == '\U{A0}' || c == '\U{1680}' || ('\U{2000}' <= c <= '\U{200A}')
    || c == '\U{2028}' || c == '\U{2029}' || c == '\U{202F}' || c == '\U{205F}'
    || c == '\U{3000}' || c == '\U{FEFF}'
  }

  predicate AllSpace(s: string) {
    forall i :: 0 <= i < |s| ==> IsJsSpace(s[i])
  }

  /** No whitespace at either end. */
  predicate IsTrimmed(s: string) {
    s == [] || (!IsJsSpace(s[0]) && !IsJsSpace(s[|s| - 1]))
  }

  function TrimStart(s: string): (r: string)
    ensures |r| <= |s| && r == s[|s| - |r|..]
    ensures AllSpace(s[..|s| - |r|])
    ensures r == [] || !IsJsSpace(r[0])
  {
    if s != [] && IsJsSpace(s[0]) then TrimStart(s[1..]) else s
  }

  function TrimEnd(s: string): (r: string)
    ensures |r| <= |s| && r == s[..|r|]
    ensures AllSpace(s[|r|..])
    ensures r == [] || !IsJsSpace(r[|r| - 1])
  {
    if s != [] && IsJsSpace(s[|s| - 1]) then TrimEnd(s[..|s| - 1]) else s
  }

  /** `s.trim()`: `s` without the whitespace at either end. */
  function Trim(s: string): (r: string)
    ensures |r| <= |s| && IsTrimmed(r)
  {
    TrimEnd(TrimStart(s))
  }

  lemma {:induction false} TrimStartOfTrimmed(s: string)
    requires s == [] || !IsJsSpace(s[0])
    ensures TrimStart(s) == s
  {
  }

  lemma {:induction false} TrimEndOfTrimmed(s: string)
    requires s == [] || !IsJsSpace(s[|s| - 1])
    ensures TrimEnd(s) == s
  {
  }

  /** Trimming twice is trimming once. */
  lemma TrimIdempotent(s: string)
    ensures Trim(Trim(s)) == Trim(s)
  {
    var t := Trim(s);
    TrimStartOfTrimmed(t);
    TrimEndOfTrimmed(t);
  }

  /** `s.trim()` is empty exactly when `s` is all whitespace. */
  lemma TrimEmptyIffAllSpace(s: string)
    ensures Trim(s) == "" <==> AllSpace(s)
  {
    var a := TrimStart(s);
    if a != [] {
      // `a` starts with the first non-space character of `s`, which survives
      // `TrimEnd` since everything `TrimEnd` drops is whitespace.
      assert !IsJsSpace(a[0]) && a[0] == s[|s| - |a|];
      assert a[0..] == a;
    } else {
      assert s[..|s|] == s;
    }
  }

  /** ASCII upper case letters become lower case; every other character is kept. */
  function LowerChar(c: char): (r: char)
    ensures !('A' <= r <= 'Z')
    ensures !('A' <= c <= 'Z') ==> r == c
  {
    if 'A' <= c <= 'Z' then (c as int - 'A' as int + 'a' as int) as char else c
  }

  predicate NoUpper(s: string) {
    forall i :: 0 <= i < |s| ==> !('A' <= s[i] <= 'Z')
  }

  /** `s.toLowerCase()` (for ASCII letters). */
  function ToLower(s: string): (r: string)
    ensures |r| == |s|
    ensures forall i :: 0 <= i < |s| ==> r[i] == LowerChar(s[i])
    ensures NoUpper(r)
  {
    if s == [] then [] else [LowerChar(s[0])] + ToLower(s[1..])
  }

  lemma ToLowerIdempotent(s: string)
    ensures ToLower(ToLower(s)) == ToLower(s)
  {
  }

  /** `s.startsWith(p)`. */
  predicate StartsWith(s: string, p: string) {
    |p| <= |s| && s[..|p|] == p
  }

  /** `s.includes(sub)`, Prisma's `contains` filter. */
  predicate Contains(s: string, sub: string)
    decreases |s|
  {
    StartsWith(s, sub) || (s != [] && Contains(s[1..], sub))
  }

  /** `sub` occurs in `s` at offset `i`. */
  predicate OccursAt(s: string, sub: string, i: nat) {
    i + |sub| <= |s| && s[i..i + |sub|] == sub
  }

  lemma {:induction false} ContainsIffOccurs(s: string, sub: string)
    ensures Contains(s, sub) <==> exists i: nat :: OccursAt(s, sub, i)
    decreases |s|
  {
    if StartsWith(s, sub) {
      assert OccursAt(s, sub, 0);
    } else if s != [] {
      ContainsIffOccurs(s[1..], sub);
      if exists i: nat :: OccursAt(s, sub, i) {
        var i: nat :| OccursAt(s, sub, i);
        assert i != 0;
        assert s[1..][i - 1..i - 1 + |sub|] == s[i..i + |sub|];
        assert OccursAt(s[1..], sub, i - 1);
      }
      if Contains(s[1..], sub) {
        var i: nat :| OccursAt(s[1..], sub, i);
        assert s[1..][i..i + |sub|] == s[i + 1..i + 1 + |sub|];
        assert OccursAt(s, sub, i + 1);
      }
    }
  }

  // ---------------------------------------------------------------------
  // Fresh identifiers

  /** The k-th candidate identifier; candidates of different k differ in length. */
  function Candidate(k: nat): (r: Id)
    ensures |r| == k + 2
  {
    if k == 0 then "id" else Candidate(k - 1) + "0"
  }

  /** The first candidate at or after `n` that `avoid` does not contain. */
  function FreshFrom(avoid: set<Id>, n: nat): (r: Id)
    requires exists k :: n <= k <= |avoid| && Candidate(k) !in avoid
    ensures r !in avoid
    decreases |avoid| - n
  {
    if Candidate(n) !in avoid then Candidate(n) else FreshFrom(avoid, n + 1)
  }

  /** The candidates 0 .. m-1, as a set. */
  ghost function Candidates(m: nat): set<Id> {
    set k | 0 <= k < m :: Candidate(k)
  }

  lemma {:induction false} CandidatesCount(m: nat)
    ensures |Candidates(m)| == m
  {
    if m > 0 {
      CandidatesCount(m - 1);
      assert Candidates(m) == Candidates(m - 1) + {Candidate(m - 1)};
      assert Candidate(m - 1) !in Candidates(m - 1);
    }
  }

  lemma SubsetCard<T>(a: set<T>, b: set<T>)
    requires a <= b
    ensures |a| <= |b|
  {
    assert b == a + (b - a);
  }

  /** Pigeonhole: among |avoid| + 1 distinct candidates one is not in avoid. */
  lemma {:induction false} SomeCandidateFree(avoid: set<Id>)
    ensures exists k :: 0 <= k <= |avoid| && Candidate(k) !in avoid
  {
    if forall k :: 0 <= k <= |avoid| ==> Candidate(k) in avoid {
      CandidatesCount(|avoid| + 1);
      SubsetCard(Candidates(|avoid| + 1), avoid);
    }
  }

  /** A row identifier not in `avoid`: the engine's id generator, abstracted as
      "any identifier not yet in use". */
  function FreshId(avoid: set<Id>): (r: Id)
    ensures r !in avoid
  {
    SomeCandidateFree(avoid);
    FreshFrom(avoid, 0)
  }

  // ---------------------------------------------------------------------
  // Sequences as sets

  /** The distinct elements of a sequence. */
  function Elems<T>(s: seq<T>): set<T> {
    set x | x in s
  }

  /** A sequence without repeats has as many distinct elements as entries. */
  lemma {:induction false} DistinctCard<T>(s: seq<T>)
    requires forall i, j :: 0 <= i < j < |s| ==> s[i] != s[j]
    ensures |Elems(s)| == |s|
  {
    if s != [] {
      var rest := s[..|s| - 1];
      DistinctCard(rest);
      var last := s[|s| - 1];
      assert s == rest + [last];
      assert Elems(s) == Elems(rest) + {last};
      assert last !in Elems(rest);
    }
  }

  // ---------------------------------------------------------------------
  // Ordering

  /** `xs` is ordered by `le`: every earlier element is `le` every later one. */
  predicate SortedBy<T>(xs: seq<T>, le: (T, T) -> bool) {
    forall i, j :: 0 <= i < j < |xs| ==> le(xs[i], xs[j])
  }

  /** `le` is a total preorder: total and transitive. */
  ghost predicate TotalPreorder<T(!new)>(le: (T, T) -> bool) {
    && (forall a, b :: le(a, b) || le(b, a))
    && (forall a, b, c :: le(a, b) && le(b, c) ==> le(a, c))
  }

  /** A sorted sequence stays sorted under a new head that is `le` all of it. */
  lemma SortedCons<T>(h: T, xs: seq<T>, le: (T, T) -> bool)
    requires SortedBy(xs, le) && forall j :: 0 <= j < |xs| ==> le(h, xs[j])
    ensures SortedBy([h] + xs, le)
  {
    forall i, j | 0 <= i < j < |[h] + xs| ensures le(([h] + xs)[i], ([h] + xs)[j]) {
      assert ([h] + xs)[j] == xs[j - 1];
      if i > 0 { assert ([h] + xs)[i] == xs[i - 1]; }
    }
  }

  /** Inserts `x` before the first element it is `le`. */
  function InsertBy<T(!new)>(x: T, xs: seq<T>, le: (T, T) -> bool): (r: seq<T>)
    requires TotalPreorder(le) && SortedBy(xs, le)
    ensures SortedBy(r, le)
    ensures multiset(r) == multiset(xs) + multiset{x}
  {
    if xs == [] then [x]
    else if le(x, xs[0]) then
      InsertFront(x, xs, le);
      [x] + xs
    else
      var rest := InsertBy(x, xs[1..], le);
      assert xs == [xs[0]] + xs[1..];
      InsertBehind(x, xs, le, rest);
      [xs[0]] + rest
  }

  /** `x` goes in front of a sorted `xs` whose head it is `le`. */
  lemma InsertFront<T(!new)>(x: T, xs: seq<T>, le: (T, T) -> bool)
    requires TotalPreorder(le) && SortedBy(xs, le) && xs != [] && le(x, xs[0])
    ensures SortedBy([x] + xs, le)
  {
    forall j | 0 <= j < |xs| ensures le(x, xs[j]) {
      if j > 0 { assert le(xs[0], xs[j]); }
    }
    SortedCons(x, xs, le);
  }

  /** The head of a sorted `xs` that `x` is not `le` stays in front of the
      rest with `x` inserted. */
  lemma InsertBehind<T(!new)>(x: T, xs: seq<T>, le: (T, T) -> bool, rest: seq<T>)
    requires TotalPreorder(le) && SortedBy(xs, le) && xs != [] && !le(x, xs[0])
    requires SortedBy(rest, le) && multiset(rest) == multiset(xs[1..]) + multiset{x}
    ensures SortedBy([xs[0]] + rest, le)
  {
    forall j | 0 <= j < |rest| ensures le(xs[0], rest[j]) {
      assert rest[j] in multiset(rest);
      if rest[j] == x {
        assert le(x, xs[0]) || le(xs[0], x);
      } else {
        assert rest[j] in multiset(xs[1..]);
        var k :| 0 <= k < |xs[1..]| && xs[1..][k] == rest[j];
        assert xs[k + 1] == rest[j];
      }
    }
    SortedCons(xs[0], rest, le);
  }

  /** Insertion sort: a permutation of `xs` ordered by the total preorder `le`. */
  function SortBy<T(!new)>(xs: seq<T>, le: (T, T) -> bool): (r: seq<T>)
    requires TotalPreorder(le)
    ensures SortedBy(r, le)
    ensures multiset(r) == multiset(xs)
    ensures |r| == |xs|
  {
    if xs == [] then []
    else
      assert xs == [xs[0]] + xs[1..];
      InsertBy(xs[0], SortBy(xs[1..], le), le)
  }

  /** Lexicographic order on code points, the order of JavaScript's default `sort`. */
  predicate LexLe(a: string, b: string) {
    a == [] || (b != [] && (a[0] < b[0] || (a[0] == b[0] && LexLe(a[1..], b[1..]))))
  }

  lemma {:induction false} LexLeTotal(a: string, b: string)
    ensures LexLe(a, b) || LexLe(b, a)
  {
    if a != [] && b != [] && a[0] == b[0] {
      LexLeTotal(a[1..], b[1..]);
    }
  }

  lemma {:induction false} LexLeTransitive(a: string, b: string, c: string)
    requires LexLe(a, b) && LexLe(b, c)
    ensures LexLe(a, c)
  {
    if a != [] && b != [] && c != [] && a[0] == b[0] == c[0] {
      LexLeTransitive(a[1..], b[1..], c[1..]);
    }
  }

  lemma LexLeIsTotalPreorder()
    ensures TotalPreorder(LexLe)
  {
    forall a, b ensures LexLe(a, b) || LexLe(b, a) {
      LexLeTotal(a, b);
    }
    forall a, b, c | LexLe(a, b) && LexLe(b, c) ensures LexLe(a, c) {
      LexLeTransitive(a, b, c);
    }
  }
}
