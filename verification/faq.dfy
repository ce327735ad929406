/**
 * The collapsible FAQ: each item is open or closed (the `active` class), and
 * clicking a question closes every item and then reopens the clicked one if
 * it was closed.
 */
module Faq {

  /** Number of open items. */
  function OpenCount(open: seq<bool>): nat {
    if open == [] then 0 else (if open[0] then 1 else 0) + OpenCount(open[1..])
  }

  /** Every item closed. */
  function AllClosed(n: nat): (r: seq<bool>)
    ensures |r| == n && forall j :: 0 <= j < n ==> !r[j]
  {
    seq(n, _ => false)
  }

  /** The click handler of question `i`: close all, then open `i` unless it was the one open. */
  function Click(open: seq<bool>, i: nat): (r: seq<bool>)
    requires i < |open|
    ensures |r| == |open|
    ensures forall j :: 0 <= j < |r| ==> (r[j] <==> j == i && !open[i])
  {
    var wasActive := open[i];
    var closed := AllClosed(|open|);
    if wasActive then closed else closed[i := true]
  }

  /** A sequence whose only possibly-open item is `i` has that item's count. */
  lemma {:induction false} OpenCountOnly(s: seq<bool>, i: nat)
    requires i < |s|
    requires forall j :: 0 <= j < |s| && j != i ==> !s[j]
    ensures OpenCount(s) == if s[i] then 1 else 0
  {
    if i == 0 {
      OpenCountNone(s[1..]);
    } else {
      OpenCountOnly(s[1..], i - 1);
    }
  }

  lemma {:induction false} OpenCountNone(s: seq<bool>)
    requires forall j :: 0 <= j < |s| ==> !s[j]
    ensures OpenCount(s) == 0
  {
    if s != [] {
      OpenCountNone(s[1..]);
    }
  }

  /** After any click, whatever the prior state, at most one item is open: none if the clicked one was open, else one. */
  lemma AtMostOneOpen(open: seq<bool>, i: nat)
    requires i < |open|
    ensures OpenCount(Click(open, i)) == if open[i] then 0 else 1
    ensures OpenCount(Click(open, i)) <= 1
  {
    OpenCountOnly(Click(open, i), i);
  }

  /** Clicking the same question twice: a closed item opens and closes again; an open one closes and reopens alone. */
  lemma ClickTwice(open: seq<bool>, i: nat)
    requires i < |open|
    ensures Click(Click(open, i), i) == if open[i] then AllClosed(|open|)[i := true] else AllClosed(|open|)
  {
  }

  /** The keydown handler of a question: Enter or Space clicks it, any other key does nothing. */
  function KeyOnQuestion(open: seq<bool>, i: nat, key: string): (r: seq<bool>)
    requires i < |open|
    ensures key == "Enter" || key == " " ==> r == Click(open, i)
    ensures key != "Enter" && key != " " ==> r == open
  {
    if key == "Enter" || key == " " then Click(open, i) else open
  }
}
