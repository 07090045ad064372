/** Course codes. A session (class group) of a course carries the course's
    code with a group suffix, `<original code>-G<n>`; both the browser client
    and the server recover the original code by cutting at the first "-G". */
module Codes {
  import opened Base

  const GroupMarker: string := "-G"

  /** `code.split("-G")[0]` when the code contains "-G", else the code. */
  function StripGroup(code: string): (r: string)
    ensures r <= code
    ensures !Contains(code, GroupMarker) ==> r == code
    ensures Contains(code, GroupMarker) ==> OccursAt(code, GroupMarker, |r|)
  {
    if Contains(code, GroupMarker) then BeforeFirst(code, GroupMarker) else code
  }

  /** What is left after stripping never contains the marker again. */
  lemma StripGroupHasNoMarker(code: string)
    ensures !Contains(StripGroup(code), GroupMarker)
  {
    var r := StripGroup(code);
    if Contains(code, GroupMarker) {
      var k := FirstOccurrence(code, GroupMarker);
      assert |r| == k;
      if j: nat :| j <= |r| && OccursAt(r, GroupMarker, j) {
        assert code[j..j + 2] == r[j..j + 2];
        assert OccursAt(code, GroupMarker, j);
        assert false;
      }
    }
  }

  /** Stripping is idempotent: a stored original code maps to itself. */
  lemma StripGroupIdempotent(code: string)
    ensures StripGroup(StripGroup(code)) == StripGroup(code)
  {
    StripGroupHasNoMarker(code);
  }

  /** A session code built from an original code without the marker gives
      that original code back, whatever the group number text is. */
  lemma StripGroupOfSessionCode(original: string, group: string)
    requires !Contains(original, GroupMarker)
    ensures StripGroup(original + GroupMarker + group) == original
  {
    var code := original + GroupMarker + group;
    assert OccursAt(code, GroupMarker, |original|);
    forall j: nat | j < |original|
      ensures !OccursAt(code, GroupMarker, j)
    {
      // an earlier occurrence would sit inside `original` or straddle the join
      if j + 1 < |original| {
        assert code[j..j + 2] == original[j..j + 2];
        assert !OccursAt(original, GroupMarker, j);
      } else {
        assert code[j + 1] == '-' != GroupMarker[1];
        assert j + 2 <= |code| ==> code[j..j + 2][1] == code[j + 1];
      }
    }
  }
}
