/**
 * The two interaction helpers of the shell: `confirm`, which asks until it
 * reads a yes or a no, and `toggle_bool`, which flips a setting and reports
 * its new state.  The terminal is a sequence of typed lines; running out of
 * lines is the end of input, on which `input` raises and the current line of
 * the shell is given up.
 */
module Prompts {
  import opened Wrappers
  import opened Text

  /** What one typed reply decides: lower-cased but not stripped, `y`/`yes` and `n`/`no` only. */
  function Decision(reply: string): Option<bool>
  {
    var a := Lower(reply);
    if a == "y" || a == "yes" then Some(true)
    else if a == "n" || a == "no" then Some(false)
    else None
  }

  /** `confirm(prompt)` on the replies `replies`: the first decisive reply, or `None` at the end of input. */
  function Answer(replies: seq<string>): Option<bool>
  {
    if replies == [] then None
    else if Decision(replies[0]).Some? then Decision(replies[0])
    else Answer(replies[1..])
  }

  /** The loop of `confirm`: reads replies until one is decisive. */
  method Confirm(replies: seq<string>) returns (r: Option<bool>)
    ensures r == Answer(replies)
  {
    var i := 0;
    while i < |replies|
      invariant 0 <= i <= |replies|
      invariant Answer(replies[i..]) == Answer(replies)
    {
      var confirmation := Lower(replies[i]);
      if confirmation == "y" || confirmation == "yes" {
        return Some(true);
      } else if confirmation == "n" || confirmation == "no" {
        return Some(false);
      }
      assert replies[i..][1..] == replies[i + 1..];
      i := i + 1;
    }
    return None;
  }

  /** Every reply before index `i` is indecisive. */
  predicate Ignored(replies: seq<string>, i: int)
    requires i <= |replies|
  {
    forall k :: 0 <= k < i ==> Decision(replies[k]) == None
  }

  /**
   * `confirm` answers `b` exactly when some reply decides `b` and every
   * reply before it is ignored.
   */
  lemma {:induction false} AnswerIff(replies: seq<string>, b: bool)
    ensures Answer(replies) == Some(b) <==>
            exists i :: 0 <= i < |replies| && Ignored(replies, i) && Decision(replies[i]) == Some(b)
  {
    if replies != [] {
      AnswerIff(replies[1..], b);
      if Decision(replies[0]) == None {
        if Answer(replies) == Some(b) {
          var i :| 0 <= i < |replies[1..]| && Ignored(replies[1..], i) && Decision(replies[1..][i]) == Some(b);
          assert Ignored(replies, i + 1) by {
            forall k | 0 <= k < i + 1 ensures Decision(replies[k]) == None {
              if k > 0 {
                assert replies[k] == replies[1..][k - 1];
              }
            }
          }
          assert Decision(replies[i + 1]) == Some(b);
        }
        if exists i :: 0 <= i < |replies| && Ignored(replies, i) && Decision(replies[i]) == Some(b) {
          var i :| 0 <= i < |replies| && Ignored(replies, i) && Decision(replies[i]) == Some(b);
          assert i > 0;
          assert Ignored(replies[1..], i - 1) by {
            forall k | 0 <= k < i - 1 ensures Decision(replies[1..][k]) == None {
              assert replies[1..][k] == replies[k + 1];
            }
          }
          assert Decision(replies[1..][i - 1]) == Some(b);
        }
      } else {
        assert forall i :: 0 < i < |replies| && Ignored(replies, i) ==> Decision(replies[0]) == None;
        if Answer(replies) == Some(b) {
          assert Ignored(replies, 0);
        }
      }
    }
  }

  /** `confirm` reaches the end of input exactly when no reply is decisive. */
  lemma {:induction false} AnswerNone(replies: seq<string>)
    ensures Answer(replies) == None <==> Ignored(replies, |replies|)
  {
    if replies != [] {
      AnswerNone(replies[1..]);
      if Decision(replies[0]) == None {
        assert Ignored(replies, |replies|) <==> Ignored(replies[1..], |replies| - 1) by {
          if Ignored(replies[1..], |replies| - 1) {
            forall k | 0 <= k < |replies| ensures Decision(replies[k]) == None {
              if k > 0 {
                assert replies[k] == replies[1..][k - 1];
              }
            }
          }
          if Ignored(replies, |replies|) {
            forall k | 0 <= k < |replies| - 1 ensures Decision(replies[1..][k]) == None {
              assert replies[1..][k] == replies[k + 1];
            }
          }
        }
      }
    }
  }

  /** A reply counts in any case, but not with surrounding blanks. */
  lemma DecisionExamples()
    ensures Decision("Y") == Some(true) && Decision("YeS") == Some(true)
    ensures Decision("No") == Some(false)
    ensures Decision(" y") == None && Decision("yes ") == None && Decision("") == None
  {
    assert Lower("Y") == "y";
    assert Lower("YeS") == "yes";
    assert Lower("No") == "no";
    assert Lower(" y") == " y";
    assert Lower("yes ") == "yes ";
  }

  /**
   * `toggle_bool(thebool, description)`: the flipped value and the notice
   * printed about it, colouring left out.
   */
  function ToggleBool(b: bool, description: string): (r: (bool, string))
    ensures r.0 != b
    ensures description <= r.1
    ensures r.1 == description + (if r.0 then " turned on" else " turned off")
  {
    if b then (false, description + " turned off") else (true, description + " turned on")
  }

  /** Toggling twice restores the value, and the two notices differ. */
  lemma ToggleTwice(b: bool, description: string)
    ensures ToggleBool(ToggleBool(b, description).0, description).0 == b
    ensures ToggleBool(ToggleBool(b, description).0, description).1 != ToggleBool(b, description).1
  {
    var on := description + " turned on";
    var off := description + " turned off";
    assert on[|description| + 9] == 'n' && off[|description| + 9] == 'f';
  }
}
