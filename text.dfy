/**
 * The two string operations the search stage uses: lower-casing
 * (`String.prototype.toLowerCase`, modelled on the ASCII letters) and
 * substring search (`String.prototype.includes`).
 */
module Text {

  /** ASCII lower-casing of one character; every other character is kept. */
  function LowerChar(c: char): char
  {
    if 'A' <= c <= 'Z' then (c as int - 'A' as int + 'a' as int) as char else c
  }

  function Lower(s: string): (r: string)
    ensures |r| == |s|
    ensures forall i :: 0 <= i < |s| ==> r[i] == LowerChar(s[i])
  {
    seq(|s|, i requires 0 <= i < |s| => LowerChar(s[i]))
  }

  /** `q` occurs in `s` starting at position `i`. */
  predicate OccursAt(s: string, q: string, i: int)
  {
    0 <= i && i + |q| <= |s| && s[i..i + |q|] == q
  }

  /** `s.includes(q)`: the empty string occurs in every string. */
  function Includes(s: string, q: string): (b: bool)
    ensures b <==> exists i :: OccursAt(s, q, i)
  {
    if |q| > |s| then false
    else if s[..|q|] == q then
      assert OccursAt(s, q, 0);
      true
    else
      var rest := Includes(s[1..], q);
      assert forall i :: OccursAt(s, q, i) <==> i > 0 && OccursAt(s[1..], q, i - 1) by {
        forall i ensures OccursAt(s, q, i) <==> i > 0 && OccursAt(s[1..], q, i - 1) {
          if i > 0 && i + |q| <= |s| {
            var here, there := s[i..i + |q|], s[1..][i - 1..i - 1 + |q|];
            forall k | 0 <= k < |q| ensures here[k] == there[k] {
              assert here[k] == s[i + k] && there[k] == s[1..][i - 1 + k];
            }
            assert here == there;
          }
        }
      }
      assert rest ==> exists i :: OccursAt(s, q, i) by {
        if rest {
          var k :| OccursAt(s[1..], q, k);
          assert OccursAt(s, q, k + 1);
        }
      }
      rest
  }
}
