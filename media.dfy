/**
 * Breakpoint listeners. `init` turns every record into the string
 * "(<type>-width: <bp>px),<bp>", keeps the first occurrence of each string
 * (one listener per distinct breakpoint), and gives each listener the records
 * whose breakpoint string equals the one after the comma.
 */
module Media {
  import opened Text
  import opened Seqs
  import opened Rules

  function ModeName(mode: Mode): string {
    match mode
    case Min => "min"
    case Max => "max"
  }

  /** The media condition handed to `window.matchMedia`. */
  function Condition(mode: Mode, breakpoint: string): (c: string) {
    "(" + ModeName(mode) + "-width: " + breakpoint + "px)"
  }

  /** A media-query entry: the condition, a comma, the raw breakpoint. */
  function MediaQuery(mode: Mode, breakpoint: string): (q: string) {
    Condition(mode, breakpoint) + "," + breakpoint
  }

  /** `mediaSplit[1]`: the text after the comma of an entry. */
  function MediaBreakpoint(q: string): string
    requires |Split(q, ',')| > 1
  {
    Split(q, ',')[1]
  }

  /** Splitting an entry on its comma gives back the condition and the breakpoint. */
  lemma SplitMediaQuery(mode: Mode, breakpoint: string)
    requires ',' !in breakpoint
    ensures Split(MediaQuery(mode, breakpoint), ',') == [Condition(mode, breakpoint), breakpoint]
    ensures MediaBreakpoint(MediaQuery(mode, breakpoint)) == breakpoint
  {
    var c := Condition(mode, breakpoint);
    assert ',' !in c by {
      assert c == "(" + ModeName(mode) + "-width: " + breakpoint + "px)";
    }
    assert [c, breakpoint][1..] == [breakpoint];
    assert Join([c, breakpoint], ',') == MediaQuery(mode, breakpoint);
    SplitJoin([c, breakpoint], ',');
  }

  /** `Array.prototype.map` over the records: one entry per record. */
  function Entries(mode: Mode, rules: seq<Rule>): (r: seq<string>)
    ensures |r| == |rules|
    ensures forall i :: 0 <= i < |rules| ==> r[i] == MediaQuery(mode, rules[i].breakpoint)
  {
    seq(|rules|, i requires 0 <= i < |rules| => MediaQuery(mode, rules[i].breakpoint))
  }

  /** `filter((item, index, self) => self.indexOf(item) === index)`. */
  function Dedup(qs: seq<string>): (r: seq<string>)
    ensures NoDup(r)
    ensures forall q :: q in r <==> q in qs
    ensures forall i, j :: 0 <= i < j < |r| ==> IndexOf(qs, r[i]) < IndexOf(qs, r[j])
  {
    if qs == [] then []
    else
      var init, last := qs[..|qs| - 1], qs[|qs| - 1];
      var d := Dedup(init);
      assert qs == init + [last];
      forall x | x in init ensures IndexOf(qs, x) == IndexOf(init, x) {
        IndexOfAppend(init, last, x);
      }
      assert IndexOf(qs, last) == |qs| - 1 <==> last !in init;
      if IndexOf(qs, last) == |qs| - 1 then
        var r := d + [last];
        assert NoDup(r) by {
          forall i, j | 0 <= i < j < |r| ensures r[i] != r[j] {
            if j == |r| - 1 { assert r[i] in d; }
            else { assert r[i] == d[i] && r[j] == d[j]; }
          }
        }
        assert forall i, j :: 0 <= i < j < |r| ==> IndexOf(qs, r[i]) < IndexOf(qs, r[j]) by {
          forall i, j | 0 <= i < j < |r| ensures IndexOf(qs, r[i]) < IndexOf(qs, r[j]) {
            if j == |r| - 1 { assert r[i] in init; }
            else { assert r[i] == d[i] && r[j] == d[j] && d[i] in init && d[j] in init; }
          }
        }
        r
      else
        d
  }

  /** `this.mediaQueries`: one entry per distinct breakpoint string, in first-occurrence order. */
  function MediaQueries(mode: Mode, rules: seq<Rule>): (qs: seq<string>)
  {
    Dedup(Entries(mode, rules))
  }

  /**
   * `оbjectsFilter`: the positions of the records whose breakpoint string is
   * `breakpoint`, in increasing order.
   */
  function Group(rules: seq<Rule>, breakpoint: string): (g: seq<nat>)
    ensures forall k :: 0 <= k < |g| ==> g[k] < |rules| && rules[g[k]].breakpoint == breakpoint
    ensures forall i :: 0 <= i < |rules| && rules[i].breakpoint == breakpoint ==> i in g
    ensures forall k, l :: 0 <= k < l < |g| ==> g[k] < g[l]
  {
    if rules == [] then []
    else
      var n := |rules| - 1;
      var g := Group(rules[..n], breakpoint);
      if rules[n].breakpoint == breakpoint then g + [n] else g
  }

  /** Every record of `rules` with a comma-free breakpoint. */
  predicate CommaFree(rules: seq<Rule>) {
    forall i :: 0 <= i < |rules| ==> ',' !in rules[i].breakpoint
  }

  /** Every entry of the deduplicated list is some record's entry. */
  lemma {:induction false} MediaQueriesShape(mode: Mode, rules: seq<Rule>, q: nat)
    requires CommaFree(rules) && q < |MediaQueries(mode, rules)|
    ensures exists i :: 0 <= i < |rules| && MediaQueries(mode, rules)[q] == MediaQuery(mode, rules[i].breakpoint)
  {
    var e := Entries(mode, rules);
    assert MediaQueries(mode, rules)[q] in e;
  }

  /**
   * The listeners partition the records: each record is in the group of
   * exactly one entry of `mediaQueries`, the one for its breakpoint.
   */
  lemma {:induction false} GroupsPartition(mode: Mode, rules: seq<Rule>, i: nat)
    requires CommaFree(rules) && i < |rules|
    ensures var qs := MediaQueries(mode, rules);
      exists q :: 0 <= q < |qs| && qs[q] == MediaQuery(mode, rules[i].breakpoint)
    ensures var qs := MediaQueries(mode, rules);
      forall q :: 0 <= q < |qs| ==>
        |Split(qs[q], ',')| > 1 &&
        (i in Group(rules, MediaBreakpoint(qs[q])) <==> qs[q] == MediaQuery(mode, rules[i].breakpoint))
  {
    var qs := MediaQueries(mode, rules);
    var e := Entries(mode, rules);
    assert e[i] in qs;
    var bp := rules[i].breakpoint;
    SplitMediaQuery(mode, bp);
    forall q | 0 <= q < |qs|
      ensures |Split(qs[q], ',')| > 1
      ensures i in Group(rules, MediaBreakpoint(qs[q])) <==> qs[q] == MediaQuery(mode, bp)
    {
      MediaQueriesShape(mode, rules, q);
      var j :| 0 <= j < |rules| && qs[q] == MediaQuery(mode, rules[j].breakpoint);
      SplitMediaQuery(mode, rules[j].breakpoint);
    }
  }

  /**
   * After `arraySort` (with collision-free numeric breakpoints), a group
   * lists its records in place order: first, then indices ascending, then
   * last for "min"; the reverse for "max".
   */
  lemma GroupInPlaceOrder(mode: Mode, rules: seq<Rule>, breakpoint: string, k: nat, l: nat)
    requires SortedPairwise(mode, rules)
    requires k < l < |Group(rules, breakpoint)|
    ensures var g := Group(rules, breakpoint);
      mode == Min ==> !PlaceBefore(rules[g[l]].place, rules[g[k]].place)
    ensures var g := Group(rules, breakpoint);
      mode == Max ==> !PlaceBefore(rules[g[k]].place, rules[g[l]].place)
  {
    var g := Group(rules, breakpoint);
    assert Compare(mode, rules[g[k]], rules[g[l]]) <= 0;
  }
}
