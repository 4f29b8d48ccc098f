/** The Move error classifier: an ordered list of keyword rules picks a
    category, a fixed table gives its likely cause and fix steps, and three
    regular expressions pull the abort code, the `0x..::module::function`
    frames and the `0x..::module` paths out of the raw text. The regular
    expressions are written out here as scanners over the characters. */
module MoveLens {
  import opened Common
  import opened Text

  // ================================================================ categories

  datatype Category =
    | MoveAbort | Gas | ObjectNotFound | TypeMismatch | AbilityConstraint
    | BorrowError | IndexOutOfBounds | PermissionError | Unknown
  {
    /** The category name as reported. */
    function Name(): string {
      match this
      case MoveAbort => "move_abort"
      case Gas => "gas"
      case ObjectNotFound => "object_not_found"
      case TypeMismatch => "type_mismatch"
      case AbilityConstraint => "ability_constraint"
      case BorrowError => "borrow_error"
      case IndexOutOfBounds => "index_out_of_bounds"
      case PermissionError => "permission_error"
      case Unknown => "unknown"
    }

    /** The position of the category's rule in the list; the fallback last. */
    function Rank(): nat {
      match this
      case MoveAbort => 0
      case Gas => 1
      case ObjectNotFound => 2
      case TypeMismatch => 3
      case AbilityConstraint => 4
      case BorrowError => 5
      case IndexOutOfBounds => 6
      case PermissionError => 7
      case Unknown => 8
    }
  }

  /** The rule table: when the category's keywords occur in the lower-cased
      text. The fallback has no rule. */
  predicate Fires(c: Category, lowered: string) {
    match c
    case MoveAbort => Contains(lowered, "moveabort") || Contains(lowered, "move abort") || Contains(lowered, "abort code")
    case Gas => Contains(lowered, "insufficient gas") || Contains(lowered, "gas budget")
    case ObjectNotFound => Contains(lowered, "object not found") || Contains(lowered, "objectnotfound")
    case TypeMismatch => Contains(lowered, "type mismatch") || Contains(lowered, "type error")
    case AbilityConstraint => Contains(lowered, "ability") && Contains(lowered, "constraint")
    case BorrowError => Contains(lowered, "borrow") && Contains(lowered, "error")
    case IndexOutOfBounds =>
      Contains(lowered, "index out of bounds") || (Contains(lowered, "vector") && Contains(lowered, "out of bounds"))
    case PermissionError => Contains(lowered, "permission") || Contains(lowered, "permission denied")
    case Unknown => false
  }

  /** The first rule that fires, in the order of the list, decides. */
  function DetectCategory(text: string): (r: Category)
    ensures r != Unknown ==> Fires(r, ToLower(text))
    ensures forall c: Category :: c.Rank() < r.Rank() ==> !Fires(c, ToLower(text))
  {
    var lowered := ToLower(text);
    if Contains(lowered, "moveabort") || Contains(lowered, "move abort") || Contains(lowered, "abort code") then MoveAbort
    else if Contains(lowered, "insufficient gas") || Contains(lowered, "gas budget") then Gas
    else if Contains(lowered, "object not found") || Contains(lowered, "objectnotfound") then ObjectNotFound
    else if Contains(lowered, "type mismatch") || Contains(lowered, "type error") then TypeMismatch
    else if Contains(lowered, "ability") && Contains(lowered, "constraint") then AbilityConstraint
    else if Contains(lowered, "borrow") && Contains(lowered, "error") then BorrowError
    else if Contains(lowered, "index out of bounds") || (Contains(lowered, "vector") && Contains(lowered, "out of bounds")) then IndexOutOfBounds
    else if Contains(lowered, "permission") || Contains(lowered, "permission denied") then PermissionError
    else Unknown
  }

  /** A move-abort keyword wins over every other keyword in the text. */
  lemma MoveAbortWins(text: string)
    requires Contains(ToLower(text), "moveabort") || Contains(ToLower(text), "move abort") || Contains(ToLower(text), "abort code")
    ensures DetectCategory(text) == MoveAbort
  {
    assert Fires(MoveAbort, ToLower(text));
  }

  /** The two conjunctive rules need both of their keywords. */
  lemma ConjunctiveRulesNeedBoth(text: string)
    ensures DetectCategory(text) == AbilityConstraint ==>
      Contains(ToLower(text), "ability") && Contains(ToLower(text), "constraint")
    ensures DetectCategory(text) == BorrowError ==>
      Contains(ToLower(text), "borrow") && Contains(ToLower(text), "error")
  {
  }

  lemma {:induction false} ToLowerIdempotent(s: string)
    ensures ToLower(ToLower(s)) == ToLower(s)
  {
    forall k | 0 <= k < |s|
      ensures ToLower(ToLower(s))[k] == ToLower(s)[k]
    {
      var c := s[k];
      assert ToLower(s)[k] == LowerChar(c);
    }
  }

  /** The classification ignores the case of the ASCII letters. */
  lemma DetectCategoryIgnoresCase(text: string)
    ensures DetectCategory(ToLower(text)) == DetectCategory(text)
  {
    ToLowerIdempotent(text);
  }

  /** Distinct categories have distinct names. */
  lemma NameInjective(c: Category, d: Category)
    requires c.Name() == d.Name()
    ensures c == d
  {
  }

  // ================================================================ advice table

  datatype Advice = Advice(cause: string, fixes: seq<string>)

  const MoveAbortCause := "A Move abort was " + "triggered by the called function."
  const MoveAbortFix1 := "Locate the aborting module and function and review its abort conditions."
  const MoveAbortFix2 := "Check inputs and object state used by the function."
  const MoveAbortFix3 := "Map the abort code to the module's documented error codes, if available."
  const GasCause := "Gas budget was too low to finish execution."
  const GasFix1 := "Increase the gas budget for the transaction."
  const GasFix2 := "Reduce computation by simplifying inputs or calls."
  const ObjectNotFoundCause := "An input object could not " + "be found or is not accessible."
  const ObjectNotFoundFix1 := "Verify the object ID exists on the selected network."
  const ObjectNotFoundFix2 := "Ensure the object is not deleted or locked by another transaction."
  const ObjectNotFoundFix3 := "Confirm the sender has access or ownership if required."
  const TypeMismatchCause := "The provided type arguments or object " + "types do not match the function signature."
  const TypeMismatchFix1 := "Re-check the Move function signature and type parameters."
  const TypeMismatchFix2 := "Ensure the object types passed match expected types."
  const AbilityCause := "A Move ability constraint was " + "violated (key/store/drop/copy)."
  const AbilityFix1 := "Inspect the type abilities required by the function."
  const AbilityFix2 := "Adjust the type used or modify the function to accept the type."
  const BorrowCause := "A mutable/immutable borrow " + "rule was violated during execution."
  const BorrowFix1 := "Review the Move code for conflicting borrows."
  const BorrowFix2 := "Ensure mutable and immutable borrows are not active at the same time."
  const IndexCause := "A vector index access was out of bounds."
  const IndexFix1 := "Check vector lengths before indexing."
  const IndexFix2 := "Add bounds checks or guard clauses."
  const PermissionCause := "The transaction lacks " + "permission for the attempted action."
  const PermissionFix1 := "Verify ownership or capability requirements in the Move module."
  const PermissionFix2 := "Ensure the sender has the necessary permissions."
  const UnknownCause := "Unknown error cause (insufficient details)."
  const UnknownFix1 := "Include the full error output with stack trace."
  const UnknownFix2 := "Double-check network, inputs, and function arguments."

  /** The fixed table from category name to likely cause and fix steps; any
      other name gets the advice for unknown errors. */
  function CauseAndFixes(category: string): (a: Advice)
    ensures a.cause != "" && |a.fixes| >= 2
  {
    if category == "move_abort" then Advice(MoveAbortCause, [MoveAbortFix1, MoveAbortFix2, MoveAbortFix3])
    else if category == "gas" then Advice(GasCause, [GasFix1, GasFix2])
    else if category == "object_not_found" then
      Advice(ObjectNotFoundCause, [ObjectNotFoundFix1, ObjectNotFoundFix2, ObjectNotFoundFix3])
    else if category == "type_mismatch" then Advice(TypeMismatchCause, [TypeMismatchFix1, TypeMismatchFix2])
    else if category == "ability_constraint" then Advice(AbilityCause, [AbilityFix1, AbilityFix2])
    else if category == "borrow_error" then Advice(BorrowCause, [BorrowFix1, BorrowFix2])
    else if category == "index_out_of_bounds" then Advice(IndexCause, [IndexFix1, IndexFix2])
    else if category == "permission_error" then Advice(PermissionCause, [PermissionFix1, PermissionFix2])
    else Advice(UnknownCause, [UnknownFix1, UnknownFix2])
  }

  /** A name that no category carries gets the same advice as `unknown`. */
  lemma CauseAndFixesFallback(category: string)
    requires forall c: Category :: c.Name() != category
    ensures CauseAndFixes(category) == CauseAndFixes(Unknown.Name())
  {
    assert MoveAbort.Name() != category && Gas.Name() != category && ObjectNotFound.Name() != category;
    assert TypeMismatch.Name() != category && AbilityConstraint.Name() != category && BorrowError.Name() != category;
    assert IndexOutOfBounds.Name() != category && PermissionError.Name() != category;
  }

  // ================================================================ scanning

  predicate IsHexDigit(c: char) {
    IsDigit(c) || 'a' <= c <= 'f' || 'A' <= c <= 'F'
  }

  /** `[A-Za-z0-9_]`. */
  predicate IsIdentChar(c: char) {
    IsDigit(c) || 'a' <= c <= 'z' || 'A' <= c <= 'Z' || c == '_'
  }

  /** `\s`: the white space and line terminator characters of ECMAScript. */
  predicate IsSpace(c: char) {
    var n := c as int;
    (9 <= n <= 13) || n == 0x20 || n == 0xA0 || n == 0x1680 || (0x2000 <= n <= 0x200A) ||
    n == 0x2028 || n == 0x2029 || n == 0x202F || n == 0x205F || n == 0x3000 || n == 0xFEFF
  }

  /** The end of the longest run of `p` characters starting at `i`. */
  function RunEnd(s: string, i: nat, p: char -> bool): (e: nat)
    requires i <= |s|
    ensures i <= e <= |s|
    ensures AllOf(s[i..e], p)
    ensures e == |s| || !p(s[e])
    decreases |s| - i
  {
    if i < |s| && p(s[i]) then
      var e := RunEnd(s, i + 1, p);
      assert s[i..e] == [s[i]] + s[i + 1..e];
      e
    else i
  }

  /** A run of `p` characters that stops where `p` fails is the longest one. */
  lemma {:induction false} RunEndUnique(s: string, i: nat, e: nat, p: char -> bool)
    requires i <= e <= |s| && AllOf(s[i..e], p) && (e == |s| || !p(s[e]))
    ensures RunEnd(s, i, p) == e
    decreases e - i
  {
    if i < e {
      assert s[i] == s[i..e][0];
      assert s[i + 1..e] == s[i..e][1..];
      RunEndUnique(s, i + 1, e, p);
    }
  }

  /** `(::[A-Za-z0-9_]+){n}` at `j`, each run taken as long as it goes. */
  function SegmentsEnd(s: string, j: nat, n: nat): (r: Option<nat>)
    requires j <= |s|
    ensures r.Some? ==> j <= r.value <= |s|
    decreases n
  {
    if n == 0 then Some(j)
    else if j + 2 <= |s| && s[j] == ':' && s[j + 1] == ':' then
      var e := RunEnd(s, j + 2, IsIdentChar);
      if e == j + 2 then None else SegmentsEnd(s, e, n - 1)
    else None
  }

  /** The end of a match of `0x[0-9a-fA-F]+` followed by `n` segments at `i`;
      `n` is 1 for module paths and 2 for function paths. */
  function PathMatchAt(s: string, i: nat, n: nat): (r: Option<nat>)
    requires i <= |s|
    ensures r.Some? ==> i + 2 < r.value <= |s|
  {
    if i + 2 <= |s| && s[i] == '0' && s[i + 1] == 'x' then
      var h := RunEnd(s, i + 2, IsHexDigit);
      if h == i + 2 then None else SegmentsEnd(s, h, n)
    else None
  }

  /** The list a global `match` returns: from `i` on, the match at the
      earliest position, then the matches after its end. */
  function PathMatches(s: string, i: nat, n: nat): (r: seq<string>)
    requires i <= |s|
    ensures 3 * |r| <= |s| - i
    decreases |s| - i
  {
    if i == |s| then []
    else
      match PathMatchAt(s, i, n)
      case Some(e) => [s[i..e]] + PathMatches(s, e, n)
      case None => PathMatches(s, i + 1, n)
  }

  // ---------------------------------------------------------------- shapes

  /** `n` repetitions of `::` and an identifier, and nothing else. */
  predicate IsSegments(t: string, n: nat)
    decreases n
  {
    if n == 0 then t == []
    else
      |t| > 2 && t[0] == ':' && t[1] == ':' &&
      exists e :: 2 < e <= |t| && AllOf(t[2..e], IsIdentChar) && IsSegments(t[e..], n - 1)
  }

  /** `0x`, hex digits, then `n` segments: the whole string is the shape. */
  predicate IsPath(m: string, n: nat) {
    |m| > 2 && m[0] == '0' && m[1] == 'x' &&
    exists h :: 2 < h <= |m| && AllOf(m[2..h], IsHexDigit) && IsSegments(m[h..], n)
  }

  lemma {:induction false} SegmentsEndShape(s: string, j: nat, n: nat)
    requires j <= |s| && SegmentsEnd(s, j, n).Some?
    ensures IsSegments(s[j..SegmentsEnd(s, j, n).value], n)
    decreases n
  {
    if n > 0 {
      var e := RunEnd(s, j + 2, IsIdentChar);
      var r := SegmentsEnd(s, j, n).value;
      assert r == SegmentsEnd(s, e, n - 1).value;
      SegmentsEndShape(s, e, n - 1);
      var t := s[j..r];
      SliceOfSlice(s, j, r, 2, e - j);
      assert t[0] == ':' && t[1] == ':';
      assert 2 < e - j <= |t| && AllOf(t[2..e - j], IsIdentChar) && IsSegments(t[e - j..], n - 1);
    }
  }

  /** Every match of the scanner has the shape of the expression. */
  lemma PathMatchAtShape(s: string, i: nat, n: nat)
    requires i <= |s| && PathMatchAt(s, i, n).Some?
    ensures IsPath(s[i..PathMatchAt(s, i, n).value], n)
  {
    var h := RunEnd(s, i + 2, IsHexDigit);
    var r := PathMatchAt(s, i, n).value;
    assert r == SegmentsEnd(s, h, n).value;
    SegmentsEndShape(s, h, n);
    var m := s[i..r];
    SliceOfSlice(s, i, r, 2, h - i);
    assert m[0] == '0' && m[1] == 'x';
    assert 2 < h - i <= |m| && AllOf(m[2..h - i], IsHexDigit) && IsSegments(m[h - i..], n);
  }

  /** The first segment of a string of the shape, read off in place: where
      its identifier ends and what follows. */
  lemma SegmentHead(s: string, j: nat, e: nat, n: nat) returns (w: nat)
    requires j <= e <= |s| && n > 0 && IsSegments(s[j..e], n)
    ensures j + 2 < j + w <= e
    ensures s[j] == ':' && s[j + 1] == ':' && AllOf(s[j + 2..j + w], IsIdentChar)
    ensures IsSegments(s[j + w..e], n - 1)
    ensures n == 1 ==> j + w == e
    ensures n > 1 ==> s[j + w] == ':'
  {
    var t := s[j..e];
    w :| 2 < w <= |t| && AllOf(t[2..w], IsIdentChar) && IsSegments(t[w..], n - 1);
    SliceOfSlice(s, j, e, 2, w);
    assert s[j] == t[0] && s[j + 1] == t[1];
    if n > 1 {
      assert s[j + w] == t[w];
    }
  }

  lemma {:induction false} SegmentsEndComplete(s: string, j: nat, e: nat, n: nat)
    requires j <= e <= |s| && n > 0 && IsSegments(s[j..e], n)
    requires e == |s| || !IsIdentChar(s[e])
    ensures SegmentsEnd(s, j, n) == Some(e)
    decreases n
  {
    var w := SegmentHead(s, j, e, n);
    RunEndUnique(s, j + 2, j + w, IsIdentChar);
    if n > 1 {
      SegmentsEndComplete(s, j + w, e, n - 1);
    }
  }

  /** The hexadecimal part of a string of the shape, read off in place. */
  lemma PathHead(s: string, i: nat, e: nat, n: nat) returns (h: nat)
    requires i <= e <= |s| && n > 0 && IsPath(s[i..e], n)
    ensures i + 2 < i + h < e
    ensures s[i] == '0' && s[i + 1] == 'x' && AllOf(s[i + 2..i + h], IsHexDigit)
    ensures IsSegments(s[i + h..e], n) && s[i + h] == ':'
  {
    var m := s[i..e];
    h :| 2 < h <= |m| && AllOf(m[2..h], IsHexDigit) && IsSegments(m[h..], n);
    SliceOfSlice(s, i, e, 2, h);
    assert s[i] == m[0] && s[i + 1] == m[1] && s[i + h] == m[h];
  }

  /** Conversely, a string of the shape that ends where identifier
      characters end is exactly what the scanner matches there. */
  lemma PathMatchAtComplete(s: string, i: nat, e: nat, n: nat)
    requires i <= e <= |s| && n > 0 && IsPath(s[i..e], n)
    requires e == |s| || !IsIdentChar(s[e])
    ensures PathMatchAt(s, i, n) == Some(e)
  {
    var h := PathHead(s, i, e, n);
    RunEndUnique(s, i + 2, i + h, IsHexDigit);
    SegmentsEndComplete(s, i + h, e, n);
  }

  /** The scanner's matches are always maximal: the character after one is
      not an identifier character. */
  lemma {:induction false} SegmentsEndMaximal(s: string, j: nat, n: nat)
    requires j <= |s| && n > 0 && SegmentsEnd(s, j, n).Some?
    ensures SegmentsEnd(s, j, n).value == |s| || !IsIdentChar(s[SegmentsEnd(s, j, n).value])
    decreases n
  {
    if n > 1 {
      SegmentsEndMaximal(s, RunEnd(s, j + 2, IsIdentChar), n - 1);
    }
  }

  /** Every element of the match list has the shape of the expression. */
  lemma {:induction false} PathMatchesShape(s: string, i: nat, n: nat)
    requires i <= |s|
    ensures forall m :: m in PathMatches(s, i, n) ==> IsPath(m, n)
    decreases |s| - i
  {
    if i < |s| {
      match PathMatchAt(s, i, n)
      case Some(e) =>
        PathMatchAtShape(s, i, n);
        PathMatchesShape(s, e, n);
      case None =>
        PathMatchesShape(s, i + 1, n);
    }
  }

  /** The list is empty exactly when the expression matches at no position. */
  lemma {:induction false} PathMatchesEmpty(s: string, i: nat, n: nat)
    requires i <= |s|
    ensures PathMatches(s, i, n) == [] <==> forall k :: i <= k <= |s| ==> PathMatchAt(s, k, n).None?
    decreases |s| - i
  {
    if i < |s| {
      match PathMatchAt(s, i, n)
      case Some(e) =>
      case None =>
        PathMatchesEmpty(s, i + 1, n);
    }
  }

  // ---------------------------------------------------------------- abort code

  /** `w` at `i`, ignoring the case of ASCII letters (`w` is lower-case). */
  predicate WordAt(s: string, i: nat, w: string) {
    i + |w| <= |s| && ToLower(s[i..i + |w|]) == w
  }

  /** The end of `abort\s*code\s*[:=]\s*` at `i`. */
  function AbortPrefixEnd(s: string, i: nat): (r: Option<nat>)
    requires i <= |s|
    ensures r.Some? ==> i < r.value <= |s|
  {
    if WordAt(s, i, "abort") then
      var j := RunEnd(s, i + 5, IsSpace);
      if WordAt(s, j, "code") then
        var k := RunEnd(s, j + 4, IsSpace);
        if k < |s| && (s[k] == ':' || s[k] == '=') then Some(RunEnd(s, k + 1, IsSpace)) else None
      else None
    else None
  }

  /** The shape of the captured group `(0x[0-9a-fA-F]+|\d+)`, with the `x`
      in either case since the expression ignores case. */
  predicate IsAbortCode(c: string) {
    (|c| > 2 && c[0] == '0' && (c[1] == 'x' || c[1] == 'X') && AllOf(c[2..], IsHexDigit)) ||
    (|c| > 0 && AllOf(c, IsDigit))
  }

  /** The end of the captured group at `j`: the hexadecimal alternative is
      tried first, the decimal one when it fails. */
  function CodeEnd(s: string, j: nat): (r: Option<nat>)
    requires j <= |s|
    ensures r.Some? ==> j < r.value <= |s| && IsAbortCode(s[j..r.value])
  {
    if j + 2 <= |s| && s[j] == '0' && (s[j + 1] == 'x' || s[j + 1] == 'X') && RunEnd(s, j + 2, IsHexDigit) > j + 2 then
      var e := RunEnd(s, j + 2, IsHexDigit);
      assert s[j..e][2..] == s[j + 2..e];
      Some(e)
    else if RunEnd(s, j, IsDigit) > j then Some(RunEnd(s, j, IsDigit))
    else None
  }

  /** The captured code of a match starting at `i`, if the expression matches there. */
  function AbortCodeAt(s: string, i: nat): (r: Option<string>)
    requires i <= |s|
    ensures r.Some? ==> IsAbortCode(r.value)
  {
    match AbortPrefixEnd(s, i)
    case None => None
    case Some(j) =>
      match CodeEnd(s, j)
      case None => None
      case Some(e) => Some(s[j..e])
  }

  /** The match results by position; none past the end of the text. */
  function AbortHits(s: string): nat -> Option<string> {
    (k: nat) => if k <= |s| then AbortCodeAt(s, k) else None
  }

  /** The capture of the leftmost match from `i` on: the first hit of the
      left-to-right search, so `Common.FirstFromNone` and
      `Common.FirstFromLeftmost` say that it is the leftmost match. */
  function FirstAbortCode(s: string, i: nat): (r: Option<string>)
    requires i <= |s|
    ensures r.Some? ==> IsAbortCode(r.value)
  {
    FirstFromLeftmost(AbortHits(s), i, |s|);
    FirstFrom(AbortHits(s), i, |s|)
  }

  // ---------------------------------------------------------------- the abort expression, declaratively

  /** `\s*` spans `s[a..b]`. */
  predicate SpacesBetween(s: string, a: nat, b: nat) {
    a <= b <= |s| && AllOf(s[a..b], IsSpace)
  }

  /** `abort\s*code\s*[:=]\s*` matches `s[i..k]`, with the white space
      after "abort" ending at `j1` and the separator at `j2`. */
  predicate AbortPrefixVia(s: string, i: nat, j1: nat, j2: nat, k: nat) {
    WordAt(s, i, "abort") && SpacesBetween(s, i + 5, j1) && WordAt(s, j1, "code") &&
    SpacesBetween(s, j1 + 4, j2) && j2 < |s| && (s[j2] == ':' || s[j2] == '=') && SpacesBetween(s, j2 + 1, k)
  }

  /** `abort\s*code\s*[:=]\s*` matches `s[i..k]` in some way. */
  ghost predicate AbortPrefixMatch(s: string, i: nat, k: nat) {
    exists j1: nat, j2: nat :: AbortPrefixVia(s, i, j1, j2, k)
  }

  /** The hexadecimal alternative `0x[0-9a-fA-F]+` can match at `j`. */
  predicate HexCodeAt(s: string, j: nat) {
    j + 2 < |s| && s[j] == '0' && (s[j + 1] == 'x' || s[j + 1] == 'X') && IsHexDigit(s[j + 2])
  }

  /** `s[j..e]` is what `(0x[0-9a-fA-F]+|\d+)` captures at `j` when nothing
      follows the group in the pattern: the first alternative that matches at
      all, taken as far as it goes. */
  predicate CodeCapture(s: string, j: nat, e: nat) {
    j < e <= |s| &&
    if HexCodeAt(s, j) then j + 2 < e && AllOf(s[j + 2..e], IsHexDigit) && (e == |s| || !IsHexDigit(s[e]))
    else AllOf(s[j..e], IsDigit) && (e == |s| || !IsDigit(s[e]))
  }

  /** The expression matches with its match starting at `i`. */
  ghost predicate AbortMatchesAt(s: string, i: nat) {
    exists k: nat, e: nat :: k < e <= |s| && AbortPrefixMatch(s, i, k) && IsAbortCode(s[k..e])
  }

  /** A character that a word of letters starts with is no white space. */
  lemma WordStartsWithLetter(s: string, i: nat, w: string)
    requires WordAt(s, i, w) && |w| > 0 && 'a' <= w[0] <= 'z'
    ensures i < |s| && !IsSpace(s[i])
  {
    assert ToLower(s[i..i + |w|])[0] == LowerChar(s[i]);
  }

  /** A match of `abort\s*code\s*[:=]\s*` whose last white space run is
      maximal is the one the scanner finds. */
  /** The scanner's steps, given where each white space run ends. */
  lemma AbortPrefixEndSteps(s: string, i: nat, j1: nat, j2: nat, k: nat)
    requires i + 5 <= |s| && WordAt(s, i, "abort") && RunEnd(s, i + 5, IsSpace) == j1
    requires WordAt(s, j1, "code") && RunEnd(s, j1 + 4, IsSpace) == j2
    requires j2 < |s| && (s[j2] == ':' || s[j2] == '=') && RunEnd(s, j2 + 1, IsSpace) == k
    ensures AbortPrefixEnd(s, i) == Some(k)
  {
  }

  lemma AbortPrefixEndComplete(s: string, i: nat, j1: nat, j2: nat, k: nat)
    requires AbortPrefixVia(s, i, j1, j2, k) && (k == |s| || !IsSpace(s[k]))
    ensures AbortPrefixEnd(s, i) == Some(k)
  {
    WordStartsWithLetter(s, j1, "code");
    RunEndUnique(s, i + 5, j1, IsSpace);
    RunEndUnique(s, j1 + 4, j2, IsSpace);
    RunEndUnique(s, j2 + 1, k, IsSpace);
    AbortPrefixEndSteps(s, i, j1, j2, k);
  }

  /** The prefix scanner ends exactly where some match of
      `abort\s*code\s*[:=]\s*` ends with no white space after it, as the
      greedy `\s*` leaves it. */
  lemma AbortPrefixEndMatches(s: string, i: nat, k: nat)
    requires i <= |s|
    ensures AbortPrefixEnd(s, i) == Some(k) <==> AbortPrefixMatch(s, i, k) && (k == |s| || !IsSpace(s[k]))
  {
    if AbortPrefixEnd(s, i) == Some(k) {
      var j1 := RunEnd(s, i + 5, IsSpace);
      var j2 := RunEnd(s, j1 + 4, IsSpace);
      assert AbortPrefixVia(s, i, j1, j2, k);
    }
    if AbortPrefixMatch(s, i, k) && (k == |s| || !IsSpace(s[k])) {
      var j1: nat, j2: nat :| AbortPrefixVia(s, i, j1, j2, k);
      AbortPrefixEndComplete(s, i, j1, j2, k);
    }
  }

  /** The group matches exactly when a digit comes next. */
  lemma CodeEndFound(s: string, j: nat)
    requires j <= |s|
    ensures CodeEnd(s, j).Some? <==> j < |s| && IsDigit(s[j])
  {
    if j < |s| && IsDigit(s[j]) {
      assert RunEnd(s, j, IsDigit) > j by {
        assert s[j..j + 1][0] == s[j];
        assert AllOf(s[j..j + 1], IsDigit);
        var e := RunEnd(s, j + 1, IsDigit);
        assert s[j..e] == [s[j]] + s[j + 1..e];
        RunEndUnique(s, j, e, IsDigit);
      }
    }
  }

  /** The scanner takes what the expression captures: the hexadecimal
      alternative when it can match, the decimal one otherwise, each as far
      as it goes. */
  lemma CodeEndCaptures(s: string, j: nat, e: nat)
    requires j <= |s|
    ensures CodeEnd(s, j) == Some(e) <==> CodeCapture(s, j, e)
  {
    if HexCodeAt(s, j) {
      var h := RunEnd(s, j + 3, IsHexDigit);
      assert s[j + 2..h] == [s[j + 2]] + s[j + 3..h];
      RunEndUnique(s, j + 2, h, IsHexDigit);
    }
    if CodeCapture(s, j, e) {
      if HexCodeAt(s, j) {
        RunEndUnique(s, j + 2, e, IsHexDigit);
      } else {
        RunEndUnique(s, j, e, IsDigit);
      }
    }
  }

  /** A match of the expression starts at `i` exactly when the scanner finds
      a code there. */
  lemma AbortCodeAtMatchesAt(s: string, i: nat)
    requires i <= |s|
    ensures AbortCodeAt(s, i).Some? <==> AbortMatchesAt(s, i)
  {
    if AbortCodeAt(s, i).Some? {
      var k := AbortPrefixEnd(s, i).value;
      var e := CodeEnd(s, k).value;
      AbortPrefixEndMatches(s, i, k);
      assert k < e <= |s| && AbortPrefixMatch(s, i, k) && IsAbortCode(s[k..e]);
    }
    if AbortMatchesAt(s, i) {
      var k: nat, e: nat :| k < e <= |s| && AbortPrefixMatch(s, i, k) && IsAbortCode(s[k..e]);
      assert s[k] == s[k..e][0];
      AbortPrefixEndMatches(s, i, k);
      CodeEndFound(s, k);
    }
  }

  /** The code found at `i` is the group the expression captures there. */
  lemma AbortCodeAtCaptures(s: string, i: nat, c: string)
    requires i <= |s|
    ensures AbortCodeAt(s, i) == Some(c) <==>
      exists k: nat, e: nat :: AbortPrefixMatch(s, i, k) && CodeCapture(s, k, e) && c == s[k..e]
  {
    if AbortCodeAt(s, i) == Some(c) {
      var k := AbortPrefixEnd(s, i).value;
      var e := CodeEnd(s, k).value;
      AbortPrefixEndMatches(s, i, k);
      CodeEndCaptures(s, k, e);
    }
    if exists k: nat, e: nat :: AbortPrefixMatch(s, i, k) && CodeCapture(s, k, e) && c == s[k..e] {
      var k: nat, e: nat :| AbortPrefixMatch(s, i, k) && CodeCapture(s, k, e) && c == s[k..e];
      CodeEndCaptures(s, k, e);
      AbortPrefixEndMatches(s, i, k);
    }
  }

  /** The search's hits are the positions where the expression matches. */
  lemma AbortHitsAreMatches(s: string)
    ensures forall i :: 0 <= i < |s| ==> (AbortHits(s)(i).None? <==> !AbortMatchesAt(s, i))
  {
    forall i | 0 <= i < |s|
      ensures AbortHits(s)(i).None? <==> !AbortMatchesAt(s, i)
    {
      assert AbortHits(s)(i) == AbortCodeAt(s, i);
      AbortCodeAtMatchesAt(s, i);
    }
  }

  /** No code is found exactly when the expression matches nowhere. */
  lemma FirstAbortCodeNone(s: string)
    ensures FirstAbortCode(s, 0).None? <==> forall i :: 0 <= i < |s| ==> !AbortMatchesAt(s, i)
  {
    AbortHitsAreMatches(s);
    FirstFromNone(AbortHits(s), 0, |s|);
  }

  /** The code found is the capture of the leftmost match of the expression. */
  lemma FirstAbortCodeIsFirstMatch(s: string, c: string)
    requires FirstAbortCode(s, 0) == Some(c)
    ensures exists i, k: nat, e: nat ::
              && 0 <= i < |s| && (forall i' :: 0 <= i' < i ==> !AbortMatchesAt(s, i'))
              && AbortPrefixMatch(s, i, k) && CodeCapture(s, k, e) && c == s[k..e]
  {
    AbortHitsAreMatches(s);
    FirstFromLeftmost(AbortHits(s), 0, |s|);
    var i :| 0 <= i < |s| && AbortHits(s)(i) == Some(c) && forall i' :: 0 <= i' < i ==> AbortHits(s)(i').None?;
    assert AbortHits(s)(i) == AbortCodeAt(s, i);
    AbortCodeAtCaptures(s, i, c);
  }

  /** The keyword part ignores case, and the hexadecimal alternative wins
      over the decimal one. */
  lemma HexAbortCodeExample()
    ensures AbortCodeAt("Abort Code: 0x1F", 0) == Some("0x1F")
  {
    var a := "Abort Code: 0x1F";
    assert ToLower(a[0..5]) == "abort";
    assert RunEnd(a, 5, IsSpace) == 6;
    assert ToLower(a[6..10]) == "code";
    assert RunEnd(a, 10, IsSpace) == 10;
    assert RunEnd(a, 11, IsSpace) == 12;
    RunEndUnique(a, 14, 16, IsHexDigit);
    assert AbortPrefixEnd(a, 0) == Some(12);
    assert CodeEnd(a, 12) == Some(16);
    assert a[12..16] == "0x1F";
  }

  /** Any run of white space may separate the words, and `=` may stand for `:`. */
  lemma DecimalAbortCodeExample()
    ensures AbortCodeAt("ABORT  CODE=7", 0) == Some("7")
  {
    var b := "ABORT  CODE=7";
    assert ToLower(b[0..5]) == "abort";
    RunEndUnique(b, 5, 7, IsSpace);
    assert ToLower(b[7..11]) == "code";
    assert RunEnd(b, 11, IsSpace) == 11;
    assert RunEnd(b, 12, IsSpace) == 12;
    assert RunEnd(b, 12, IsDigit) == 13;
    assert AbortPrefixEnd(b, 0) == Some(12);
    assert CodeEnd(b, 12) == Some(13);
    assert b[12..13] == "7";
  }

  /** A separator is required between "code" and the number. */
  lemma MissingSeparatorExample()
    ensures AbortCodeAt("abortcode 5", 0).None?
  {
    var c := "abortcode 5";
    assert ToLower(c[0..5]) == "abort";
    assert RunEnd(c, 5, IsSpace) == 5;
    assert ToLower(c[5..9]) == "code";
    RunEndUnique(c, 9, 10, IsSpace);
  }

  // ================================================================ the summary

  datatype MoveErrorSummary = MoveErrorSummary(
    category: Category,
    summary: string,
    likelyCause: string,
    fixSteps: seq<string>,
    confidence: Level,
    abortCode: string,
    moveStack: seq<string>,
    modules: seq<string>)

  /** `abort_code`: the capture of the first match, or "unknown". */
  function AbortCodeText(raw: string): (code: string)
    ensures code == "unknown" <==> FirstAbortCode(raw, 0).None?
    ensures code != "unknown" ==> IsAbortCode(code) && FirstAbortCode(raw, 0) == Some(code)
  {
    assert !IsAbortCode("unknown") by {
      assert !IsDigit("unknown"[0]);
    }
    match FirstAbortCode(raw, 0)
    case Some(c) => c
    case None => "unknown"
  }

  /** Low for unknown errors, medium for a move abort without stack frames,
      high otherwise. */
  function Confidence(category: Category, stack: seq<string>): (level: Level)
    ensures level == Low <==> category == Unknown
    ensures level == Medium <==> category == MoveAbort && stack == []
  {
    if category == Unknown then Low
    else if category == MoveAbort && |stack| == 0 then Medium
    else High
  }

  /** "Detected " and the category name with spaces for underscores, or a
      fixed text for unknown errors. */
  function SummaryText(category: Category): (summary: string)
    ensures summary != ""
    ensures category == Unknown ==> summary == "Parsed Move error output"
    ensures category != Unknown ==>
      |summary| == 9 + |category.Name()| && summary[..9] == "Detected " &&
      forall k :: 0 <= k < |category.Name()| ==>
        summary[9 + k] == (if category.Name()[k] == '_' then ' ' else category.Name()[k])
    ensures '_' !in summary
  {
    if category == Unknown then "Parsed Move error output"
    else
      var spaced := ReplaceChar(category.Name(), '_', ' ');
      var summary := "Detected " + spaced;
      assert summary[..9] == "Detected " && summary[9..] == spaced;
      assert forall k :: 0 <= k < |summary| ==> summary[k] != '_' by {
        forall k | 0 <= k < |summary|
          ensures summary[k] != '_'
        {
          if k >= 9 {
            assert summary[k] == spaced[k - 9];
          }
        }
      }
      summary
  }

  /** The structured summary of a raw error text. */
  function ParseMoveError(raw: string): (e: MoveErrorSummary)
    ensures e.category == DetectCategory(raw)
    ensures Advice(e.likelyCause, e.fixSteps) == CauseAndFixes(e.category.Name()) && |e.fixSteps| > 0
    ensures e.confidence == Low <==> e.category == Unknown
    ensures e.confidence == Medium <==> e.category == MoveAbort && e.moveStack == []
    ensures e.category != Unknown ==>
      |e.summary| == 9 + |e.category.Name()| && e.summary[..9] == "Detected " &&
      forall k :: 0 <= k < |e.category.Name()| ==>
        e.summary[9 + k] == (if e.category.Name()[k] == '_' then ' ' else e.category.Name()[k])
    ensures e.category == Unknown ==> e.summary == "Parsed Move error output"
    ensures '_' !in e.summary
    ensures e.abortCode == "unknown" <==> FirstAbortCode(raw, 0).None?
    ensures e.abortCode != "unknown" ==> IsAbortCode(e.abortCode) && FirstAbortCode(raw, 0) == Some(e.abortCode)
    ensures e.moveStack == Dedup(PathMatches(raw, 0, 2)) && e.modules == Dedup(PathMatches(raw, 0, 1))
  {
    var category := DetectCategory(raw);
    var advice := CauseAndFixes(category.Name());
    var stack := Dedup(PathMatches(raw, 0, 2));
    var modules := Dedup(PathMatches(raw, 0, 1));
    MoveErrorSummary(category, SummaryText(category), advice.cause, advice.fixes,
      Confidence(category, stack), AbortCodeText(raw), stack, modules)
  }

  /** `move_stack` and `modules` hold each function path and each module path
      of the text exactly once. */
  lemma StackAndModulesFromPaths(raw: string)
    ensures NoDuplicates(ParseMoveError(raw).moveStack)
    ensures forall m :: m in ParseMoveError(raw).moveStack <==> m in PathMatches(raw, 0, 2)
    ensures NoDuplicates(ParseMoveError(raw).modules)
    ensures forall m :: m in ParseMoveError(raw).modules <==> m in PathMatches(raw, 0, 1)
    ensures forall m :: m in ParseMoveError(raw).moveStack ==> IsPath(m, 2)
    ensures forall m :: m in ParseMoveError(raw).modules ==> IsPath(m, 1)
  {
    DedupFirstOccurrenceOrder(PathMatches(raw, 0, 2));
    DedupFirstOccurrenceOrder(PathMatches(raw, 0, 1));
    PathMatchesShape(raw, 0, 2);
    PathMatchesShape(raw, 0, 1);
  }

  /** `move_stack` and `modules` list the matches in the order of their first
      occurrence in the text. */
  lemma StackInFirstOccurrenceOrder(raw: string)
    ensures forall i, j :: 0 <= i < j < |ParseMoveError(raw).moveStack| ==>
      IndexOf(PathMatches(raw, 0, 2), ParseMoveError(raw).moveStack[i]) <
      IndexOf(PathMatches(raw, 0, 2), ParseMoveError(raw).moveStack[j])
    ensures forall i, j :: 0 <= i < j < |ParseMoveError(raw).modules| ==>
      IndexOf(PathMatches(raw, 0, 1), ParseMoveError(raw).modules[i]) <
      IndexOf(PathMatches(raw, 0, 1), ParseMoveError(raw).modules[j])
  {
    DedupFirstOccurrenceOrder(PathMatches(raw, 0, 2));
    DedupFirstOccurrenceOrder(PathMatches(raw, 0, 1));
  }

  /** Without any `0x` in the text there are neither frames nor modules. */
  lemma NoHexPrefixNoPaths(raw: string)
    requires !Contains(raw, "0x")
    ensures ParseMoveError(raw).moveStack == [] && ParseMoveError(raw).modules == []
  {
    ContainsAt(raw, "0x");
    forall k, n | 0 <= k <= |raw| && n > 0
      ensures PathMatchAt(raw, k, n).None?
    {
      assert k + 2 <= |raw| ==> ("0x" <= raw[k..] <==> raw[k] == '0' && raw[k + 1] == 'x');
    }
    PathMatchesEmpty(raw, 0, 2);
    PathMatchesEmpty(raw, 0, 1);
  }

  /** A text with an abort code but without one of the three move-abort
      phrases is not classified as a move abort: the expression allows any
      white space, or none, between "abort" and "code". */
  lemma AbortCodeWithoutMoveAbortCategory()
    ensures ParseMoveError("abortcode=7").abortCode == "7"
    ensures ParseMoveError("abortcode=7").category == Unknown
    ensures ParseMoveError("abortcode=7").confidence == Low
  {
    var s := "abortcode=7";
    assert ToLower(s[0..5]) == "abort";
    assert RunEnd(s, 5, IsSpace) == 5;
    assert ToLower(s[5..9]) == "code";
    assert RunEnd(s, 9, IsSpace) == 9;
    assert RunEnd(s, 10, IsSpace) == 10;
    assert RunEnd(s, 10, IsDigit) == 11;
    assert AbortPrefixEnd(s, 0) == Some(10);
    assert CodeEnd(s, 10) == Some(11);
    assert s[10..11] == "7";
    assert AbortCodeAt(s, 0) == Some("7");
    NoCategoryKeyword();
  }

  /** None of the rules fires on "abortcode=7". */
  lemma NoCategoryKeyword()
    ensures DetectCategory("abortcode=7") == Unknown
  {
    var s := "abortcode=7";
    assert ToLower(s) == s;
    forall c: Category
      ensures !Fires(c, s)
    {
      RuleSilent(s, c);
    }
  }

  /** A rule does not fire on a text made of characters its keywords miss. */
  lemma RuleSilent(s: string, c: Category)
    requires forall k :: 0 <= k < |s| ==> s[k] in {'a', 'b', 'o', 'r', 't', 'c', 'd', 'e', '=', '7'}
    ensures !Fires(c, s)
  {
    match c
    case MoveAbort =>
      ContainsNeedsChar(s, "moveabort", 0);
      ContainsNeedsChar(s, "move abort", 0);
      ContainsNeedsChar(s, "abort code", 5);
    case Gas =>
      ContainsNeedsChar(s, "insufficient gas", 0);
      ContainsNeedsChar(s, "gas budget", 0);
    case ObjectNotFound =>
      ContainsNeedsChar(s, "object not found", 2);
      ContainsNeedsChar(s, "objectnotfound", 2);
    case TypeMismatch =>
      ContainsNeedsChar(s, "type mismatch", 1);
      ContainsNeedsChar(s, "type error", 1);
    case AbilityConstraint =>
      ContainsNeedsChar(s, "ability", 2);
    case BorrowError =>
      ContainsNeedsChar(s, "borrow", 5);
    case IndexOutOfBounds =>
      ContainsNeedsChar(s, "index out of bounds", 0);
      ContainsNeedsChar(s, "vector", 0);
    case PermissionError =>
      ContainsNeedsChar(s, "permission", 0);
      ContainsNeedsChar(s, "permission denied", 0);
    case Unknown =>
  }
}
