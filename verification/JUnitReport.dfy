/** Test reports: the cases of a parsed document, their outcomes, and the suites' own counters. */
module JUnitReport {
  import opened Prelude
  import opened XmlText
  import opened Xml

  datatype Counters = Counters(tests: nat, failures: nat, errors: nat, skipped: nat)

  const MAX_SAFE_INTEGER := 0x1F_FFFF_FFFF_FFFF

  function Plus(a: Counters, b: Counters): Counters {
    Counters(a.tests + b.tests, a.failures + b.failures, a.errors + b.errors, a.skipped + b.skipped)
  }

  predicate HasChild(e: XmlElement, name: string) {
    exists i :: 0 <= i < |e.children| && e.children[i].name == name
  }

  predicate IsCase(e: XmlElement) {
    e.name == "testcase"
  }

  predicate IsSuite(e: XmlElement) {
    e.name == "testsuite" || e.name == "testsuites"
  }

  /** The test cases of a subtree in document order; what is inside a test case is none of them. */
  function Cases(e: XmlElement): seq<XmlElement>
    decreases e
  {
    if IsCase(e) then [e] else CasesOfAll(e.children)
  }

  function CasesOfAll(es: seq<XmlElement>): seq<XmlElement>
    decreases es
  {
    if es == [] then [] else Cases(es[0]) + CasesOfAll(es[1..])
  }

  /** The suites of a subtree, outside test cases. */
  function Suites(e: XmlElement): seq<XmlElement>
    decreases e
  {
    if IsCase(e) then [] else SuitesOfAll(e.children) + if IsSuite(e) then [e] else []
  }

  function SuitesOfAll(es: seq<XmlElement>): seq<XmlElement>
    decreases es
  {
    if es == [] then [] else Suites(es[0]) + SuitesOfAll(es[1..])
  }

  function One(yes: bool): nat {
    if yes then 1 else 0
  }

  function CaseCounters(e: XmlElement): Counters {
    Counters(1, One(HasChild(e, "failure")), One(HasChild(e, "error")), One(HasChild(e, "skipped")))
  }

  /** What these cases add up to. */
  function Totals(cases: seq<XmlElement>): Counters {
    if cases == [] then Counters(0, 0, 0, 0) else Plus(CaseCounters(cases[0]), Totals(cases[1..]))
  }

  function Lookup(attributes: seq<Attribute>, name: string): Option<string> {
    if attributes == [] then None
    else if attributes[0].name == name then Some(attributes[0].value)
    else Lookup(attributes[1..], name)
  }

  /** A declared counter, when there is one, is a safe decimal number and the count. */
  predicate Agrees(e: XmlElement, key: string, count: nat) {
    var value := Lookup(e.attributes, key);
    value.Some? ==>
      && AllDigits(value.value, 10) && NumberOf(value.value, 10) <= MAX_SAFE_INTEGER
      && NumberOf(value.value, 10) == count
  }

  predicate Declares(suite: XmlElement, counters: Counters) {
    && Agrees(suite, "tests", counters.tests) && Agrees(suite, "failures", counters.failures)
    && Agrees(suite, "errors", counters.errors) && Agrees(suite, "skipped", counters.skipped)
  }

  /** Every suite of the subtree declares what its own cases add up to. */
  predicate Honest(e: XmlElement) {
    forall i :: 0 <= i < |Suites(e)| ==> Declares(Suites(e)[i], Totals(Cases(Suites(e)[i])))
  }

  lemma {:induction false} TotalsSplit(a: seq<XmlElement>, b: seq<XmlElement>)
    ensures Totals(a + b) == Plus(Totals(a), Totals(b))
  {
    hide CaseCounters;
    if a == [] {
      assert a + b == b;
    } else {
      assert (a + b)[1..] == a[1..] + b;
      TotalsSplit(a[1..], b);
    }
  }

  predicate HonestAll(suites: seq<XmlElement>) {
    forall i :: 0 <= i < |suites| ==> Declares(suites[i], Totals(Cases(suites[i])))
  }

  lemma HonestIs(e: XmlElement)
    ensures Honest(e) <==> HonestAll(Suites(e))
  {
    hide Suites, Declares, Totals, Cases;
  }

  lemma HonestSplit(a: seq<XmlElement>, b: seq<XmlElement>)
    ensures HonestAll(a + b) <==> HonestAll(a) && HonestAll(b)
  {
    hide Declares, Totals, Cases;
    if HonestAll(a + b) {
      assert forall i :: 0 <= i < |a| ==> (a + b)[i] == a[i];
      assert forall i :: 0 <= i < |b| ==> (a + b)[|a| + i] == b[i];
    }
  }

  lemma {:induction false} ListsGrow(es: seq<XmlElement>, i: nat)
    requires i < |es|
    ensures CasesOfAll(es[..i + 1]) == CasesOfAll(es[..i]) + Cases(es[i])
    ensures SuitesOfAll(es[..i + 1]) == SuitesOfAll(es[..i]) + Suites(es[i])
    decreases i
  {
    hide Cases, Suites;
    var more := es[..i + 1];
    if i == 0 {
      assert es[..0] == [] && more[1..] == [];
      assert Cases(es[0]) + [] == [] + Cases(es[0]) && Suites(es[0]) + [] == [] + Suites(es[0]);
    } else {
      ListsGrow(es[1..], i - 1);
      assert more[1..] == es[1..][..i] && es[..i][1..] == es[1..][..i - 1];
      assert es[1..][i - 1] == es[i];
    }
  }

  lemma ListsOf(e: XmlElement)
    ensures IsCase(e) ==> Cases(e) == [e] && Suites(e) == [] && Totals(Cases(e)) == CaseCounters(e)
    ensures !IsCase(e) ==> Cases(e) == CasesOfAll(e.children)
    ensures !IsCase(e) ==> Suites(e) == SuitesOfAll(e.children) + if IsSuite(e) then [e] else []
  {
    if IsCase(e) {
      assert [e][1..] == [];
      assert Totals([]) == Counters(0, 0, 0, 0);
    }
  }

  method VerifyCounters(e: XmlElement, counters: Counters) returns (ok: bool)
    ensures ok <==> Declares(e, counters)
  {
    hide Agrees;
    var keys := ["tests", "failures", "errors", "skipped"];
    var counts := [counters.tests, counters.failures, counters.errors, counters.skipped];
    for i := 0 to |keys|
      invariant forall j :: 0 <= j < i ==> Agrees(e, keys[j], counts[j])
    {
      if !Agrees(e, keys[i], counts[i]) {
        return false;
      }
    }
    assert Agrees(e, keys[0], counts[0]) && Agrees(e, keys[1], counts[1]) && Agrees(e, keys[2], counts[2])
           && Agrees(e, keys[3], counts[3]);
    return true;
  }

  /** Counters and cases of a subtree; None when a suite in it declares something else. */
  method CollectCases(node: XmlElement, cases: seq<XmlElement>)
    returns (counters: Option<Counters>, all: seq<XmlElement>)
    ensures counters.Some? <==> Honest(node)
    ensures counters.Some? ==> counters.value == Totals(Cases(node)) && all == cases + Cases(node)
    decreases node
  {
    hide Honest, Declares, Totals, Cases, Suites, CaseCounters;
    ListsOf(node);
    HonestIs(node);
    all := cases;
    if IsCase(node) {
      all := all + [node];
      NoneDishonest();
      CaseCountersAre(node);
      return Some(Counters(1, One(HasChild(node, "failure")), One(HasChild(node, "error")),
                           One(HasChild(node, "skipped")))), all;
    }
    var total := Counters(0, 0, 0, 0);
    NoneDishonest();
    NoneCounted();
    assert node.children[..0] == [];
    assert cases + [] == cases;
    for i := 0 to |node.children|
      invariant total == Totals(CasesOfAll(node.children[..i])) && all == cases + CasesOfAll(node.children[..i])
      invariant HonestAll(SuitesOfAll(node.children[..i]))
    {
      var nested;
      ListsGrow(node.children, i);
      HonestIs(node.children[i]);
      HonestSplit(SuitesOfAll(node.children[..i]), Suites(node.children[i]));
      nested, all := CollectCases(node.children[i], all);
      if nested.None? {
        DishonestWithin(node, i);
        return None, cases;
      }
      TotalsSplit(CasesOfAll(node.children[..i]), Cases(node.children[i]));
      assert (cases + CasesOfAll(node.children[..i])) + Cases(node.children[i])
             == cases + CasesOfAll(node.children[..i + 1]);
      total := Plus(total, nested.value);
    }
    assert node.children[..|node.children|] == node.children;
    HonestSplit(SuitesOfAll(node.children), if IsSuite(node) then [node] else []);
    OneHonest(node);
    if IsSuite(node) {
      var ok := VerifyCounters(node, total);
      if !ok {
        return None, cases;
      }
    }
    return Some(total), all;
  }

  lemma NoneDishonest()
    ensures HonestAll([]) && SuitesOfAll([]) == []
  {
  }

  lemma NoneCounted()
    ensures CasesOfAll([]) == [] && Totals([]) == Counters(0, 0, 0, 0)
  {
  }

  lemma OneHonest(e: XmlElement)
    ensures HonestAll([e]) <==> Declares(e, Totals(Cases(e)))
  {
    hide Declares, Totals, Cases;
    if Declares(e, Totals(Cases(e))) {
      assert forall i :: 0 <= i < |[e]| ==> [e][i] == e;
    } else {
      assert [e][0] == e;
    }
  }

  lemma CaseCountersAre(e: XmlElement)
    ensures CaseCounters(e)
            == Counters(1, One(HasChild(e, "failure")), One(HasChild(e, "error")), One(HasChild(e, "skipped")))
  {
  }

  /** A dishonest suite below makes the whole dishonest. */
  lemma DishonestWithin(node: XmlElement, i: nat)
    requires !IsCase(node) && i < |node.children| && !HonestAll(Suites(node.children[i]))
    ensures !HonestAll(Suites(node))
  {
    hide Declares, Totals, Cases, Suites, HonestAll;
    ListsOf(node);
    SuitesWithin(node.children, i);
    HonestSplit(SuitesOfAll(node.children), if IsSuite(node) then [node] else []);
  }

  lemma {:induction false} SuitesWithin(es: seq<XmlElement>, i: nat)
    requires i < |es| && !HonestAll(Suites(es[i]))
    ensures !HonestAll(SuitesOfAll(es))
    decreases i
  {
    hide Declares, Totals, Cases, Suites, HonestAll;
    HonestSplit(Suites(es[0]), SuitesOfAll(es[1..]));
    if i > 0 {
      SuitesWithin(es[1..], i - 1);
    }
  }

  // ---------------------------------------------------------------------------------------------
  // The report
  // ---------------------------------------------------------------------------------------------

  datatype Outcome = Passed | Failed | Skipped

  datatype Test = Test(nodeid: string, outcome: Outcome)

  datatype Report = Report(exitcode: nat, tests: seq<Test>)

  const MAX_LENGTH := 16 * 1024 * 1024

  predicate Broken(e: XmlElement) {
    HasChild(e, "failure") || HasChild(e, "error")
  }

  method OutcomeOf(e: XmlElement) returns (outcome: Outcome)
    ensures outcome.Failed? <==> Broken(e)
    ensures outcome.Skipped? <==> !Broken(e) && HasChild(e, "skipped")
  {
    var states := 0;
    var failed := false;
    for i := 0 to |e.children|
      invariant failed <==> exists j :: 0 <= j < i && (e.children[j].name == "failure" || e.children[j].name == "error")
      invariant states > 0 <==> exists j ::
                  && 0 <= j < i
                  && (e.children[j].name == "failure" || e.children[j].name == "error"
                      || e.children[j].name == "skipped")
    {
      var name := e.children[i].name;
      if name == "failure" || name == "error" || name == "skipped" {
        states := states + 1;
        failed := failed || name != "skipped";
      }
    }
    outcome := if failed then Failed else if states > 0 then Skipped else Passed;
  }

  predicate Named(e: XmlElement) {
    Lookup(e.attributes, "name").Some? && Lookup(e.attributes, "name").value != ""
  }

  function NodeId(e: XmlElement): string
    requires Named(e)
  {
    var owner := Lookup(e.attributes, "classname");
    var file := Lookup(e.attributes, "file");
    (if owner.Some? then owner.value else if file.Some? then file.value else "test") + "::"
        + Lookup(e.attributes, "name").value
  }

  predicate AllNamed(cases: seq<XmlElement>) {
    forall i :: 0 <= i < |cases| ==> Named(cases[i])
  }

  /**
   * A report is accepted when it parses, its root is a suite, every suite's counters hold and every case has a name.
   */
  predicate Acceptable(input: string) {
    && |input| <= MAX_LENGTH && Parse(input).Some?
    && var root := Parse(input).value;
       IsSuite(root) && Honest(root) && AllNamed(Cases(root))
  }

  function TestOf(e: XmlElement): (t: Test)
    requires Named(e)
  {
    Test(NodeId(e), if Broken(e) then Failed else if HasChild(e, "skipped") then Skipped else Passed)
  }

  predicate Tested(cases: seq<XmlElement>, tests: seq<Test>) {
    |tests| == |cases| && forall i :: 0 <= i < |cases| ==> Named(cases[i]) && tests[i] == TestOf(cases[i])
  }

  predicate AnyBroken(cases: seq<XmlElement>) {
    exists i :: 0 <= i < |cases| && Broken(cases[i])
  }

  /** The tests of the cases, in their order; None when a case has no name. */
  method TestsOf(cases: seq<XmlElement>) returns (tests: Option<seq<Test>>, failed: bool)
    ensures tests.Some? <==> AllNamed(cases)
    ensures tests.Some? ==> Tested(cases, tests.value) && (failed <==> AnyBroken(cases))
  {
    hide TestOf, Named, Broken;
    var done: seq<Test> := [];
    failed := false;
    for i := 0 to |cases|
      invariant |done| == i && forall j :: 0 <= j < i ==> Named(cases[j]) && done[j] == TestOf(cases[j])
      invariant failed <==> exists j :: 0 <= j < i && Broken(cases[j])
    {
      if !Named(cases[i]) {
        return None, failed;
      }
      var outcome := OutcomeOf(cases[i]);
      TestIs(cases[i], outcome);
      done := done + [Test(NodeId(cases[i]), outcome)];
      failed := failed || outcome.Failed?;
    }
    tests := Some(done);
  }

  lemma TestIs(e: XmlElement, outcome: Outcome)
    requires Named(e) && (outcome.Failed? <==> Broken(e))
             && (outcome.Skipped? <==> !Broken(e) && HasChild(e, "skipped"))
    ensures Test(NodeId(e), outcome) == TestOf(e)
  {
  }

  /** One test for each case, in order; the exit code is zero when no case is broken. */
  method PytestJUnit(input: string) returns (report: Option<Report>)
    ensures report.Some? <==> Acceptable(input)
    ensures report.Some? ==>
              var cases := Cases(Parse(input).value);
              Tested(cases, report.value.tests) && report.value.exitcode == if AnyBroken(cases) then 1 else 0
  {
    hide *;
    AcceptableIs(input);
    if |input| > MAX_LENGTH {
      return None;
    }
    var root := ParseXml(input);
    if root.None? || !IsSuite(root.value) {
      return None;
    }
    var counters, cases := CollectCases(root.value, []);
    if counters.None? {
      return None;
    }
    assert cases == Cases(root.value);
    var tests, failed := TestsOf(cases);
    report := if tests.None? then None else Some(Report(if failed then 1 else 0, tests.value));
  }

  lemma AcceptableIs(input: string)
    ensures Acceptable(input)
            <==> && |input| <= MAX_LENGTH && Parse(input).Some?
                 && IsSuite(Parse(input).value) && Honest(Parse(input).value) && AllNamed(Cases(Parse(input).value))
  {
    hide Parse, Honest, Cases, AllNamed;
  }
}
