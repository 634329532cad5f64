/**
 * Feature names of the form `<prefix>///<category>` and the label the extractor
 * reads out of them: `name.split("///")[1].strip()`.
 */
module Names {
  import opened Wrappers
  import opened Text

  const Delimiter: string := "///"

  /** The delimiter "///" starts at index `i` of `s`. */
  predicate DelimiterAt(s: string, i: int)
  {
    0 <= i && i + 3 <= |s| && s[i] == '/' && s[i + 1] == '/' && s[i + 2] == '/'
  }

  /** Python's `"///" in s`. */
  ghost predicate HasDelimiter(s: string)
  {
    exists i :: DelimiterAt(s, i)
  }

  /** The leftmost delimiter at or after index `from`, as `str.find` scans. */
  function FindDelimiter(s: string, from: nat): (r: Option<nat>)
    decreases |s| - from
    ensures r.Some? ==> from <= r.value && DelimiterAt(s, r.value)
  {
    if from + 3 > |s| then None
    else if DelimiterAt(s, from) then Some(from)
    else FindDelimiter(s, from + 1)
  }

  /** `FindDelimiter` skips no delimiter: none starts between `from` and what it finds. */
  lemma {:induction false} FindDelimiterFirst(s: string, from: nat)
    decreases |s| - from
    ensures forall k :: from <= k && (FindDelimiter(s, from).None? || k < FindDelimiter(s, from).value) ==>
      !DelimiterAt(s, k)
  {
    if from + 3 <= |s| && !DelimiterAt(s, from) {
      FindDelimiterFirst(s, from + 1);
    }
  }

  /**
   * Python's `s.split("///")`: cut at the leftmost delimiter, then go on splitting
   * what follows it.
   */
  function Split(s: string): (parts: seq<string>)
    decreases |s|
    ensures |parts| >= 1
  {
    match FindDelimiter(s, 0)
    case None => [s]
    case Some(i) => [s[..i]] + Split(s[i + 3..])
  }

  /** Python's `"///".join(parts)`. */
  function Join(parts: seq<string>): string
  {
    if |parts| == 0 then []
    else if |parts| == 1 then parts[0]
    else parts[0] + Delimiter + Join(parts[1..])
  }

  /** Joining the pieces of a split with the delimiter gives back the string. */
  lemma {:induction false} JoinSplit(s: string)
    ensures Join(Split(s)) == s
    decreases |s|
  {
    match FindDelimiter(s, 0)
    case None =>
    case Some(i) =>
      var rest := s[i + 3..];
      JoinSplit(rest);
      assert s[i..i + 3] == Delimiter;
      assert s == s[..i] + Delimiter + rest;
  }

  /** No piece of a split contains the delimiter. */
  lemma {:induction false} SplitPiecesFree(s: string)
    ensures forall k :: 0 <= k < |Split(s)| ==> !HasDelimiter(Split(s)[k])
    decreases |s|
  {
    FindDelimiterFirst(s, 0);
    match FindDelimiter(s, 0)
    case None =>
      assert Split(s) == [s];
    case Some(i) =>
      SplitPiecesFree(s[i + 3..]);
      forall j | DelimiterAt(s[..i], j)
        ensures false
      {
        assert DelimiterAt(s, j);
      }
  }

  /** A split has a second piece exactly when the delimiter occurs. */
  lemma SplitHasSecondPiece(s: string)
    ensures |Split(s)| >= 2 <==> HasDelimiter(s)
  {
    FindDelimiterFirst(s, 0);
    match FindDelimiter(s, 0)
    case None =>
    case Some(i) =>
  }

  /** `name.split("///")[1].strip()`; None where indexing `[1]` raises IndexError. */
  function LabelOf(name: string): Option<string>
  {
    var parts := Split(name);
    if |parts| < 2 then None else Some(Strip(parts[1]))
  }

  /** The label exists exactly when the name contains the delimiter. */
  lemma LabelExistsIff(name: string)
    ensures LabelOf(name).Some? <==> HasDelimiter(name)
  {
    SplitHasSecondPiece(name);
  }

  /** `i` is the first place at or after `from` where the delimiter starts. */
  ghost predicate FirstDelimiterFrom(s: string, from: nat, i: nat)
  {
    from <= i && DelimiterAt(s, i) && forall k :: from <= k < i ==> !DelimiterAt(s, k)
  }

  /** A piece starting at `from` ends at `j`: at the next delimiter, or at the end of `s`. */
  ghost predicate PieceEndsAt(s: string, from: nat, j: nat)
  {
    || FirstDelimiterFrom(s, from, j)
    || (j == |s| && forall k :: from <= k ==> !DelimiterAt(s, k))
  }

  /** The label is the stripped text between the first and the second delimiter. */
  lemma LabelBetweenDelimiters(name: string, i: nat, j: nat)
    requires FirstDelimiterFrom(name, 0, i)
    requires PieceEndsAt(name, i + 3, j)
    ensures i + 3 <= j <= |name|
    ensures LabelOf(name) == Some(Strip(name[i + 3..j]))
  {
    FindDelimiterFirst(name, 0);
    assert FindDelimiter(name, 0) == Some(i);
    var rest := name[i + 3..];
    FindDelimiterFirst(rest, 0);
    var parts := Split(name);
    assert parts == [name[..i]] + Split(rest);
    assert forall k :: 0 <= k ==> (DelimiterAt(rest, k) <==> DelimiterAt(name, i + 3 + k));
    assert j - (i + 3) <= |rest| && Split(rest)[0] == rest[..j - (i + 3)] by {
      if FirstDelimiterFrom(name, i + 3, j) {
        assert DelimiterAt(rest, j - (i + 3));
        assert FindDelimiter(rest, 0) == Some(j - (i + 3));
      } else {
        assert FindDelimiter(rest, 0).None?;
      }
    }
    assert parts[1] == name[i + 3..j];
  }

  /** `name` holds exactly one delimiter, at `i`, and no other '/'. */
  predicate PlainName(name: string, i: nat)
  {
    && DelimiterAt(name, i)
    && forall k :: 0 <= k < |name| && (k < i || i + 3 <= k) ==> name[k] != '/'
  }

  /**
   * The label of a name `prefix///category` in which no other '/' occurs, and whose
   * category has no surrounding whitespace, is the category itself.
   */
  lemma LabelOfPlainName(name: string, i: nat)
    requires PlainName(name, i)
    requires i + 3 < |name| ==> !IsSpace(name[i + 3]) && !IsSpace(name[|name| - 1])
    ensures LabelOf(name) == Some(name[i + 3..])
  {
    PlainNameDelimiters(name, i);
    LabelBetweenDelimiters(name, i, |name|);
    CategoryUnchanged(name, i);
  }

  /** In a plain name the piece after the delimiter runs to the end of the name. */
  lemma PlainNameDelimiters(name: string, i: nat)
    requires PlainName(name, i)
    ensures FirstDelimiterFrom(name, 0, i)
    ensures PieceEndsAt(name, i + 3, |name|)
  {
  }

  lemma CategoryUnchanged(name: string, i: nat)
    requires i + 3 <= |name|
    requires i + 3 < |name| ==> !IsSpace(name[i + 3]) && !IsSpace(name[|name| - 1])
    ensures Strip(name[i + 3..|name|]) == name[i + 3..]
  {
    var category := name[i + 3..|name|];
    assert category == name[i + 3..];
    assert category != [] ==> category[0] == name[i + 3] && category[|category| - 1] == name[|name| - 1];
    StripUnchanged(category);
  }
}
