/**
 * The active-list derivation: `pathname.split('lists/')[1]`, converted with
 * `Number`, then looked up with `lists.find` by identifier.
 */
module Routing {
  import opened Wrappers
  import opened Model

  const Separator: string := "lists/"

  /** The separator starts at position `i` of `s`. */
  ghost predicate OccursAt(s: string, i: int)
  {
    0 <= i && i + |Separator| <= |s| && s[i..i + |Separator|] == Separator
  }

  /** The separator occurs nowhere in `s`. */
  ghost predicate Free(s: string)
  {
    forall j :: !OccursAt(s, j)
  }

  /** The leftmost occurrence of the separator at or after `from`, as `split` scans. */
  function FirstOccurrence(s: string, from: nat): (r: Option<nat>)
    requires from <= |s|
    requires forall j :: 0 <= j < from ==> !OccursAt(s, j)
    ensures r.Some? ==> OccursAt(s, r.value) && forall j :: 0 <= j < r.value ==> !OccursAt(s, j)
    ensures r.None? <==> Free(s)
    decreases |s| - from
  {
    if from + |Separator| > |s| then None
    else if s[from..from + |Separator|] == Separator then
      assert OccursAt(s, from);
      Some(from)
    else FirstOccurrence(s, from + 1)
  }

  /**
   * `path.split('lists/')[1]`: the text between the first and the second
   * occurrence of the separator (or the end), or None (`undefined`) when the
   * separator does not occur.
   */
  function SecondPiece(path: string): (r: Option<string>)
    ensures r.None? <==> Free(path)
    ensures r.Some? ==> Free(r.value)
    ensures r.Some? ==>
      FirstOccurrence(path, 0).Some? &&
      var rest := path[FirstOccurrence(path, 0).value + |Separator|..];
      r.value <= rest &&
      (r.value == rest || (OccursAt(rest, |r.value|) && forall j :: 0 <= j < |r.value| ==> !OccursAt(rest, j)))
  {
    match FirstOccurrence(path, 0)
    case None => None
    case Some(i) =>
      var rest := path[i + |Separator|..];
      match FirstOccurrence(rest, 0)
      case None => Some(rest)
      case Some(k) =>
        assert forall j :: OccursAt(rest[..k], j) ==> OccursAt(rest, j) by {
          forall j | OccursAt(rest[..k], j) ensures OccursAt(rest, j) {
            assert rest[..k][j..j + |Separator|] == rest[j..j + |Separator|];
          }
        }
        assert |rest[..k]| == k && rest[..k] <= rest;
        assert OccursAt(rest, k) && forall j :: 0 <= j < k ==> !OccursAt(rest, j);
        Some(rest[..k])
  }

  predicate IsDigit(c: char)
  {
    '0' <= c <= '9'
  }

  predicate AllDigits(s: string)
  {
    forall i :: 0 <= i < |s| ==> IsDigit(s[i])
  }

  /** The value of a string of decimal digits; the empty string has value 0. */
  function DecimalValue(s: string): nat
    requires AllDigits(s)
  {
    if s == [] then 0
    else 10 * DecimalValue(s[..|s| - 1]) + (s[|s| - 1] as int - '0' as int)
  }

  /** `${n}` for a non-negative number: its decimal digits, without leading zeros. */
  function DecimalString(n: nat): (s: string)
    ensures |s| > 0 && AllDigits(s)
    ensures DecimalValue(s) == n
    ensures s[0] == '0' ==> n == 0
  {
    var digit := ('0' as int + n % 10) as char;
    if n < 10 then [digit]
    else
      var s := DecimalString(n / 10) + [digit];
      assert s[..|s| - 1] == DecimalString(n / 10);
      s
  }

  /**
   * `Number(piece)` over the forms this model admits: a string of decimal
   * digits (the empty string gives 0), or a sign `+`/`-` followed by at least
   * one digit; anything else is NaN. None stands for both `undefined` and NaN,
   * which equal no identifier.
   */
  function ToNumber(piece: Option<string>): Option<int>
  {
    match piece
    case None => None
    case Some(s) =>
      if AllDigits(s) then Some(DecimalValue(s))
      else if |s| > 1 && (s[0] == '-' || s[0] == '+') && AllDigits(s[1..]) then
        var magnitude: int := DecimalValue(s[1..]);
        Some(if s[0] == '-' then -magnitude else magnitude)
      else None
  }

  /** `${n}` for any integer: its decimal digits, after a `-` when negative. */
  function NumberString(n: int): (s: string)
    ensures |s| > 0 && WithoutL(s)
    ensures n >= 0 <==> AllDigits(s)
  {
    if n >= 0 then DecimalString(n)
    else
      var s := "-" + DecimalString(-n);
      assert !IsDigit(s[0]);
      s
  }

  /** `Number(`${n}`) === n` for every integer. */
  lemma NumberOfNumberString(n: int)
    ensures ToNumber(Some(NumberString(n))) == Some(n)
  {
    if n < 0 {
      var s := NumberString(n);
      assert s[1..] == DecimalString(-n);
    }
  }

  /** A leading zero does not change the value of a digit string. */
  lemma {:induction false} DecimalValueLeadingZero(s: string)
    requires AllDigits(s)
    ensures AllDigits("0" + s) && DecimalValue("0" + s) == DecimalValue(s)
  {
    if s != [] {
      var z := "0" + s;
      assert z[..|z| - 1] == "0" + s[..|s| - 1];
      assert z[|z| - 1] == s[|s| - 1];
      DecimalValueLeadingZero(s[..|s| - 1]);
    }
  }

  /** `Number` ignores leading zeros: `0<digits>` and `<digits>` convert to the same number. */
  lemma NumberLeadingZero(s: string)
    requires AllDigits(s)
    ensures ToNumber(Some("0" + s)) == ToNumber(Some(s)) != None
  {
    DecimalValueLeadingZero(s);
  }

  /** The active list for `path`: the first list whose identifier equals the number after `lists/`. */
  function ActiveList(lists: seq<List>, path: string): (r: Option<List>)
    ensures Free(path) ==> r == None
    ensures r.Some? ==> r.value in lists
  {
    match ToNumber(SecondPiece(path))
    case None => None
    case Some(n) => FindList(lists, n)
  }

  /** The separator's first letter occurs nowhere else in it, so no occurrence straddles a boundary. */
  lemma FirstOccurrenceAfterFree(prefix: string, rest: string)
    requires Free(prefix)
    ensures FirstOccurrence(prefix + Separator + rest, 0) == Some(|prefix|)
  {
    var s := prefix + Separator + rest;
    assert s[|prefix|..|prefix| + |Separator|] == Separator;
    assert OccursAt(s, |prefix|);
    forall j | 0 <= j < |prefix| ensures !OccursAt(s, j) {
      if j + |Separator| <= |prefix| {
        assert s[j..j + |Separator|] == prefix[j..j + |Separator|];
        assert !OccursAt(prefix, j);
      } else {
        var k := |prefix| - j;
        assert s[j..j + |Separator|][k] == s[|prefix|] == 'l';
        assert Separator[k] != 'l';
      }
    }
  }

  /** `s` contains no letter `l`, the separator's first character. */
  predicate WithoutL(s: string)
  {
    forall i :: 0 <= i < |s| ==> s[i] != 'l'
  }

  /** A string without the letter `l` contains no separator. */
  lemma WithoutLIsFree(s: string)
    requires WithoutL(s)
    ensures Free(s)
  {
    forall j ensures !OccursAt(s, j) {
      if 0 <= j && j + |Separator| <= |s| {
        assert s[j..j + |Separator|][0] == s[j];
      }
    }
  }

  /**
   * A path `<prefix>lists/<piece>`, with no `lists/` in the prefix and no `l`
   * in the piece, makes active the first list whose identifier is
   * `Number(piece)`, or none when that is NaN or no list has it.
   */
  lemma {:induction false} ActiveListOfListsPath(lists: seq<List>, prefix: string, piece: string)
    requires Free(prefix) && WithoutL(piece)
    ensures ActiveList(lists, prefix + Separator + piece) ==
      match ToNumber(Some(piece))
      case None => None
      case Some(n) => FindList(lists, n)
  {
    var path := prefix + Separator + piece;
    FirstOccurrenceAfterFree(prefix, piece);
    assert path[|prefix| + |Separator|..] == piece;
    WithoutLIsFree(piece);
  }

  /**
   * A path `<prefix>lists/<digits>`, with no `lists/` in the prefix, makes
   * active the first list whose identifier is the digits' value, or none.
   */
  lemma ActiveListOfDigitsPath(lists: seq<List>, prefix: string, digits: string)
    requires Free(prefix) && AllDigits(digits)
    ensures ActiveList(lists, prefix + Separator + digits) == FindList(lists, DecimalValue(digits))
  {
    ActiveListOfListsPath(lists, prefix, digits);
  }

  /**
   * Clicking a list navigates to `/lists/${list.id}`; with unique identifiers
   * the list derived from that path is the clicked list, tasks included.
   */
  lemma NavigateToList(lists: seq<List>, l: List)
    requires UniqueIds(lists) && l in lists
    ensures ActiveList(lists, "/" + Separator + NumberString(l.id)) == Some(l)
  {
    assert Free("/");
    ActiveListOfListsPath(lists, "/", NumberString(l.id));
    NumberOfNumberString(l.id);
    FindListUnique(lists, l);
  }
}
