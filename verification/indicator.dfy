/**
 * The typing indicator line: the typing nicknames joined with ", ",
 * followed by "is typing..." for one name and "are typing..." for more.
 */
module Indicator {
  import opened Wrappers

  /** Total length of the strings of `xs`. */
  function SumLengths(xs: seq<string>): nat {
    if |xs| == 0 then 0 else |xs[0]| + SumLengths(xs[1..])
  }

  /** `xs.join(sep)`: the elements in order with `sep` between neighbours. */
  function Join(xs: seq<string>, sep: string): (r: string)
    ensures |xs| > 0 ==> |r| == SumLengths(xs) + (|xs| - 1) * |sep|
    ensures |xs| == 1 ==> r == xs[0]
    ensures |xs| > 1 ==> xs[0] + sep <= r
    ensures |xs| == 0 ==> r == ""
  {
    if |xs| == 0 then ""
    else if |xs| == 1 then xs[0]
    else xs[0] + sep + Join(xs[1..], sep)
  }

  /** Joining builds left to right: one more name is the separator and that name appended. */
  lemma {:induction false} JoinSnoc(xs: seq<string>, y: string, sep: string)
    requires |xs| > 0
    ensures Join(xs + [y], sep) == Join(xs, sep) + sep + y
    decreases |xs|
  {
    if |xs| == 1 {
      assert xs + [y] == [xs[0], y];
      assert [xs[0], y][1..] == [y];
    } else {
      assert (xs + [y])[0] == xs[0];
      assert (xs + [y])[1..] == xs[1..] + [y];
      JoinSnoc(xs[1..], y, sep);
    }
  }

  /** `suffix` is a suffix of `s`. */
  predicate EndsWith(s: string, suffix: string) {
    |suffix| <= |s| && s[|s| - |suffix|..] == suffix
  }

  /**
   * The indicator text, or `None` when no indicator is rendered: it exists
   * only in the connected view and only for a present, non-empty list.
   */
  function IndicatorText(connected: bool, typingUsers: Option<seq<string>>): (r: Option<string>)
    ensures r.Some? <==> connected && typingUsers.Some? && |typingUsers.value| > 0
    ensures r.Some? ==> Join(typingUsers.value, ", ") <= r.value
    ensures r.Some? && |typingUsers.value| == 1 ==> r.value == typingUsers.value[0] + " is typing..."
    ensures r.Some? && |typingUsers.value| > 1 ==>
      && typingUsers.value[0] + ", " <= r.value
      && EndsWith(r.value, " are typing...")
  {
    if !connected then None
    else
      match typingUsers
      case None => None
      case Some(names) =>
        if |names| == 0 then None
        else
          var joined := Join(names, ", ");
          var verb := if |names| == 1 then " is typing..." else " are typing...";
          var text := joined + verb;
          assert text[|text| - |verb|..] == verb;
          assert text[..|joined|] == joined;
          assert |names| > 1 ==> text[..|names[0]| + 2] == joined[..|names[0]| + 2];
          Some(text)
  }

  /** With two or more typers every name appears, in order: the text for `xs + [y]` is the text of `xs` joined with ", " and `y`. */
  lemma IndicatorTextMore(xs: seq<string>, y: string)
    requires |xs| > 0
    ensures IndicatorText(true, Some(xs + [y])) == Some(Join(xs, ", ") + ", " + y + " are typing...")
  {
    JoinSnoc(xs, y, ", ");
  }

  /** Two typers: "Alice, Bob are typing...". */
  lemma TwoTypersExample()
    ensures IndicatorText(true, Some(["Alice", "Bob"])) == Some("Alice, Bob are typing...")
  {
    assert ["Alice", "Bob"][1..] == ["Bob"];
    assert Join(["Alice", "Bob"], ", ") == "Alice, Bob";
    assert "Alice, Bob" + " are typing..." == "Alice, Bob are typing...";
  }
}
