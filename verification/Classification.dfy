/**
 * The verdict on a Classifier: the cluster's Kubernetes version against the version constraints, and the cluster's
 * resources against the resource selectors, with or without an aggregate script. None stands for an evaluation error.
 */
module Classification {
  import opened Prelude

  // ----- versions -----

  /** A version without pre-release and build parts, which the agent drops before it compares. */
  datatype Version = Version(major: nat, minor: nat, patch: nat)

  /** Precedence of section 11 of Semantic Versioning 2.0.0. */
  predicate Below(a: Version, b: Version) {
    || a.major < b.major
    || (a.major == b.major && (a.minor < b.minor || (a.minor == b.minor && a.patch < b.patch)))
  }

  predicate AtMost(a: Version, b: Version) {
    a == b || Below(a, b)
  }

  datatype Comparison = Equal | NotEqual | GreaterThan | GreaterThanOrEqual | LessThan | LessThanOrEqual

  /** Malformed: the comparison is none of the six or the version does not parse, which leaves a nil constraint. */
  datatype Constraint = Constraint(comparison: Comparison, version: Version) | Malformed

  predicate Holds(c: Constraint, v: Version) {
    match c
    case Malformed => false
    case Constraint(Equal, w) => v == w
    case Constraint(NotEqual, w) => v != w
    case Constraint(GreaterThan, w) => Below(w, v)
    case Constraint(GreaterThanOrEqual, w) => AtMost(w, v)
    case Constraint(LessThan, w) => Below(v, w)
    case Constraint(LessThanOrEqual, w) => AtMost(v, w)
  }

  /** Precedence decides at the first component that differs, and puts any two versions in one of three relations. */
  lemma BelowIsLexicographic(a: Version, b: Version)
    ensures Below(a, b) <==>
            || a.major < b.major
            || (a.major == b.major && a.minor < b.minor)
            || (a.major == b.major && a.minor == b.minor && a.patch < b.patch)
    ensures (if Below(a, b) then 1 else 0) + (if Below(b, a) then 1 else 0) + (if a == b then 1 else 0) == 1
    ensures forall c :: Below(a, b) && Below(b, c) ==> Below(a, c)
  {}

  /** The versions that each comparison accepts. */
  lemma ComparisonsExactly(v: Version, w: Version)
    ensures Holds(Constraint(Equal, w), v) <==> v.major == w.major && v.minor == w.minor && v.patch == w.patch
    ensures Holds(Constraint(NotEqual, w), v) <==> v.major != w.major || v.minor != w.minor || v.patch != w.patch
    ensures Holds(Constraint(GreaterThan, w), v) <==>
            || v.major > w.major
            || (v.major == w.major && (v.minor > w.minor || (v.minor == w.minor && v.patch > w.patch)))
    ensures Holds(Constraint(GreaterThanOrEqual, w), v) <==>
            || v.major > w.major
            || (v.major == w.major && (v.minor > w.minor || (v.minor == w.minor && v.patch >= w.patch)))
    ensures Holds(Constraint(LessThan, w), v) <==>
            || v.major < w.major
            || (v.major == w.major && (v.minor < w.minor || (v.minor == w.minor && v.patch < w.patch)))
    ensures Holds(Constraint(LessThanOrEqual, w), v) <==>
            || v.major < w.major
            || (v.major == w.major && (v.minor < w.minor || (v.minor == w.minor && v.patch <= w.patch)))
    ensures !Holds(Malformed, v)
  {}

  /** How the comparisons relate, and that a later version keeps a lower bound met and an earlier one an upper bound. */
  lemma ComparisonLaws(v: Version, w: Version, later: Version)
    ensures Holds(Constraint(GreaterThan, w), v) <==> !Holds(Constraint(LessThanOrEqual, w), v)
    ensures Holds(Constraint(LessThan, w), v) <==> !Holds(Constraint(GreaterThanOrEqual, w), v)
    ensures Holds(Constraint(Equal, w), v) <==> !Holds(Constraint(NotEqual, w), v)
    ensures Holds(Constraint(Equal, w), v) <==>
            Holds(Constraint(GreaterThanOrEqual, w), v) && Holds(Constraint(LessThanOrEqual, w), v)
    ensures Below(v, later) ==>
              && (Holds(Constraint(GreaterThan, w), v) ==> Holds(Constraint(GreaterThan, w), later))
              && (Holds(Constraint(GreaterThanOrEqual, w), v) ==> Holds(Constraint(GreaterThan, w), later))
              && (Holds(Constraint(LessThan, w), later) ==> Holds(Constraint(LessThan, w), v))
              && (Holds(Constraint(LessThanOrEqual, w), later) ==> Holds(Constraint(LessThan, w), v))
  {}

  ghost predicate Accepts(constraints: seq<Constraint>, v: Version) {
    forall c <- constraints :: Holds(c, v)
  }

  /** How an evaluation ends: in an error, in a call on a nil constraint, or in a verdict. */
  datatype Answer = Failed | NilConstraint | Verdict(isMatch: bool)

  /** The loop over the constraints ends at position i. */
  ghost predicate StopsAt(constraints: seq<Constraint>, v: Version, i: nat) {
    i < |constraints| && !Holds(constraints[i], v) && forall j | 0 <= j < i :: Holds(constraints[j], v)
  }

  /** Versions are compared component by component, from the major one on. */
  method Compare(v: Version, w: Version) returns (sign: int)
    ensures sign == if Below(v, w) then -1 else if v == w then 0 else 1
  {
    if v.major != w.major {
      return if v.major < w.major then -1 else 1;
    }
    if v.minor != w.minor {
      return if v.minor < w.minor then -1 else 1;
    }
    if v.patch != w.patch {
      return if v.patch < w.patch then -1 else 1;
    }
    return 0;
  }

  method Check(comparison: Comparison, w: Version, v: Version) returns (met: bool)
    ensures met <==> Holds(Constraint(comparison, w), v)
  {
    var sign := Compare(v, w);
    match comparison
    case Equal => return sign == 0;
    case NotEqual => return sign != 0;
    case GreaterThan => return sign > 0;
    case GreaterThanOrEqual => return sign >= 0;
    case LessThan => return sign < 0;
    case LessThanOrEqual => return sign <= 0;
  }

  /** current is None when the cluster's version cannot be read or parsed. */
  method IsVersionAMatch(current: Option<Version>, constraints: seq<Constraint>) returns (r: Answer)
    ensures r == Failed <==> current.None?
    ensures r == Verdict(true) <==> current.Some? && Accepts(constraints, current.value)
    ensures r == Verdict(false) <==>
            current.Some? && exists i: nat :: StopsAt(constraints, current.value, i) && !constraints[i].Malformed?
    ensures r == NilConstraint <==>
            current.Some? && exists i: nat :: StopsAt(constraints, current.value, i) && constraints[i].Malformed?
  {
    if current.None? {
      return Failed;
    }
    for i := 0 to |constraints|
      invariant forall j | 0 <= j < i :: Holds(constraints[j], current.value)
    {
      assert constraints[i] in constraints;
      if constraints[i].Malformed? {
        assert StopsAt(constraints, current.value, i);
        return NilConstraint;
      }
      var met := Check(constraints[i].comparison, constraints[i].version, current.value);
      if !met {
        assert StopsAt(constraints, current.value, i);
        return Verdict(false);
      }
    }
    return Verdict(true);
  }

  /** Between two accepted versions a version is accepted exactly when no "!=" constraint names it. */
  lemma AcceptedVersionsAreConvex(constraints: seq<Constraint>, low: Version, v: Version, high: Version)
    requires Accepts(constraints, low) && Accepts(constraints, high)
    requires AtMost(low, v) && AtMost(v, high)
    ensures Accepts(constraints, v) <==> Constraint(NotEqual, v) !in constraints
  {
    forall c <- constraints | c != Constraint(NotEqual, v) ensures Holds(c, v) {
      assert Holds(c, low) && Holds(c, high);
    }
    assert !Holds(Constraint(NotEqual, v), v);
  }

  // ----- one resource selector -----

  datatype Resource = Resource(ref: Ref, content: string)

  /** A selector's script on one resource: None when it fails; a selector without a script takes every resource. */
  type Script = Resource -> Option<bool>

  function Items(listing: Listing<Resource>): seq<Resource> {
    if listing.Listed? then listing.items else []
  }

  ghost predicate Fails(listing: Listing<Resource>, script: Script) {
    listing.ListError? || exists i | 0 <= i < |Items(listing)| :: script(Items(listing)[i]).None?
  }

  function Chosen(items: seq<Resource>, script: Script): seq<Resource> {
    if items == [] then []
    else
      var last := items[|items| - 1];
      Chosen(items[..|items| - 1], script) + if script(last) == Some(true) then [last] else []
  }

  /** Choosing keeps the order: it goes through the parts of a list one after the other. */
  lemma {:induction false} ChosenInOrder(items: seq<Resource>, more: seq<Resource>, script: Script)
    ensures Chosen(items + more, script) == Chosen(items, script) + Chosen(more, script)
  {
    if more == [] {
      assert items + more == items;
    } else {
      var init, last, all := more[..|more| - 1], more[|more| - 1], items + more;
      assert all[..|all| - 1] == items + init && all[|all| - 1] == last;
      ChosenInOrder(items, init, script);
      var end := if script(last) == Some(true) then [last] else [];
      assert Chosen(all, script) == Chosen(items + init, script) + end;
      assert Chosen(items, script) + Chosen(init, script) + end == Chosen(items, script) + (Chosen(init, script) + end);
    }
  }

  lemma ChosenOne(x: Resource, script: Script)
    ensures Chosen([x], script) == if script(x) == Some(true) then [x] else []
  {
    assert [x][..0] == [] && Chosen([], script) == [];
  }

  /** A resource is chosen as often as it is listed if its script says so, and not at all otherwise. */
  lemma {:induction false} ChosenExactly(items: seq<Resource>, script: Script, x: Resource)
    ensures multiset(Chosen(items, script))[x] == if script(x) == Some(true) then multiset(items)[x] else 0
  {
    if items != [] {
      ChosenExactly(items[..|items| - 1], script, x);
      assert items == items[..|items| - 1] + [items[|items| - 1]];
    }
  }

  /** The outcome of a selector: its matching resources in the listed order, or None. */
  ghost function Outcome(listing: Listing<Resource>, script: Script): Option<seq<Resource>> {
    if Fails(listing, script) then None else Some(Chosen(Items(listing), script))
  }

  method GetResourcesForSelector(listing: Listing<Resource>, script: Script) returns (r: Option<seq<Resource>>)
    ensures r == Outcome(listing, script)
    ensures listing.ListError? ==> r == None
    ensures listing.NoSuchKind? ==> r == Some([])
    ensures listing.Listed? ==>
              if exists i | 0 <= i < |listing.items| :: script(listing.items[i]).None? then r == None
              else r == Some(Chosen(listing.items, script))
  {
    if listing.ListError? {
      return None;
    }
    if listing.NoSuchKind? {
      return Some([]);
    }
    var result := [];
    for i := 0 to |listing.items|
      invariant result == Chosen(listing.items[..i], script)
      invariant forall j | 0 <= j < i :: script(listing.items[j]).Some?
    {
      if script(listing.items[i]).None? {
        assert script(Items(listing)[i]).None?;
        return None;
      }
      assert listing.items[..i + 1][..i] == listing.items[..i];
      if script(listing.items[i]).value {
        result := result + [listing.items[i]];
      }
    }
    assert listing.items[..|listing.items|] == listing.items;
    return Some(result);
  }

  // ----- all selectors -----

  datatype Selector = Selector(listing: Listing<Resource>, script: Script)

  /** The aggregate script's verdict on a list of resources; None when it fails. */
  type Aggregate = seq<Resource> -> Option<bool>

  /** aggregate is None when the Classifier has no aggregate script. */
  datatype ResourceConstraint = ResourceConstraint(selectors: seq<Selector>, aggregate: Option<Aggregate>)

  ghost function Outcomes(selectors: seq<Selector>): (r: seq<Option<seq<Resource>>>) {
    seq(|selectors|, i requires 0 <= i < |selectors| => Outcome(selectors[i].listing, selectors[i].script))
  }

  predicate Found(outcome: Option<seq<Resource>>) {
    outcome.Some? && |outcome.value| > 0
  }

  /** The first selector that finds no resource, for want of a match or for an error; their number if there is none. */
  ghost function FirstMiss(outcomes: seq<Option<seq<Resource>>>): (k: nat)
    ensures k <= |outcomes| && forall j | 0 <= j < k :: Found(outcomes[j])
    ensures k < |outcomes| ==> !Found(outcomes[k])
  {
    if outcomes == [] || !Found(outcomes[0]) then 0 else 1 + FirstMiss(outcomes[1..])
  }

  lemma FirstMissAtMost(outcomes: seq<Option<seq<Resource>>>, k: nat)
    requires k < |outcomes| && !Found(outcomes[k])
    ensures FirstMiss(outcomes) <= k
  {}

  function Concatenated(outcomes: seq<Option<seq<Resource>>>): seq<Resource> {
    if outcomes == [] then []
    else
      var last := outcomes[|outcomes| - 1];
      Concatenated(outcomes[..|outcomes| - 1]) + if last.Some? then last.value else []
  }

  /** What was found is put together in the order of the selectors. */
  lemma {:induction false} ConcatenatedInOrder(outcomes: seq<Option<seq<Resource>>>, more: seq<Option<seq<Resource>>>)
    ensures Concatenated(outcomes + more) == Concatenated(outcomes) + Concatenated(more)
  {
    if more == [] {
      assert outcomes + more == outcomes;
    } else {
      var init := more[..|more| - 1];
      assert (outcomes + more)[..|outcomes + more| - 1] == outcomes + init;
      ConcatenatedInOrder(outcomes, init);
    }
  }

  lemma ConcatenatedOne(found: seq<Resource>)
    ensures Concatenated([Some(found)]) == found
  {
    assert [Some(found)][..0] == [];
  }

  lemma ConcatenatedNext(outcomes: seq<Option<seq<Resource>>>, i: nat)
    requires i < |outcomes| && outcomes[i].Some?
    ensures None !in outcomes[..i] ==> None !in outcomes[..i + 1]
    ensures Concatenated(outcomes[..i + 1]) == Concatenated(outcomes[..i]) + outcomes[i].value
  {
    assert outcomes[..i + 1] == outcomes[..i] + [outcomes[i]];
    assert outcomes[..i + 1][..i] == outcomes[..i];
  }

  /** The verdict without an aggregate script: the first selector that finds nothing decides. */
  ghost function SelectorVerdict(outcomes: seq<Option<seq<Resource>>>): Option<bool> {
    var k := FirstMiss(outcomes);
    if k == |outcomes| then Some(true) else if outcomes[k].None? then None else Some(false)
  }

  /** The verdict with one: the script's, on everything that was found, in the order of the selectors. */
  ghost function ScriptVerdict(outcomes: seq<Option<seq<Resource>>>, aggregate: Aggregate): Option<bool> {
    if None in outcomes then None else aggregate(Concatenated(outcomes))
  }

  ghost function ResourceVerdict(constraint: Option<ResourceConstraint>): Option<bool> {
    match constraint
    case None => Some(true)
    case Some(c) =>
      if c.aggregate.None? then SelectorVerdict(Outcomes(c.selectors))
      else ScriptVerdict(Outcomes(c.selectors), c.aggregate.value)
  }

  method AreResourcesAMatch(constraint: Option<ResourceConstraint>) returns (r: Option<bool>)
    ensures r == ResourceVerdict(constraint)
    ensures constraint.None? ==> r == Some(true)
    ensures constraint.Some? && constraint.value.aggregate.Some? ==>
              var outcomes := Outcomes(constraint.value.selectors);
              r == if None in outcomes then None else constraint.value.aggregate.value(Concatenated(outcomes))
    ensures constraint.Some? && constraint.value.aggregate.None? ==>
              (r == Some(true) <==> forall o <- Outcomes(constraint.value.selectors) :: o.Some? && o.value != [])
  {
    if constraint.None? {
      return Some(true);
    }
    var c := constraint.value;
    ghost var outcomes := Outcomes(c.selectors);
    MatchesExactly(outcomes);
    var resources := [];
    for i := 0 to |c.selectors|
      invariant None !in outcomes[..i]
      invariant resources == Concatenated(outcomes[..i])
      invariant c.aggregate.None? ==> FirstMiss(outcomes) >= i
    {
      var found := GetResourcesForSelector(c.selectors[i].listing, c.selectors[i].script);
      assert found == outcomes[i];
      if found.None? {
        assert outcomes[i] in outcomes;
        FirstMissAtMost(outcomes, i);
        return None;
      }
      if c.aggregate.None? && |found.value| == 0 {
        FirstMissAtMost(outcomes, i);
        return Some(false);
      }
      ConcatenatedNext(outcomes, i);
      resources := resources + found.value;
    }
    assert outcomes[..|c.selectors|] == outcomes;
    return if c.aggregate.Some? then c.aggregate.value(resources) else Some(true);
  }

  /** The verdict of evaluateClassifierInstance: resources are looked at only when the version matches. */
  method Classify(current: Option<Version>, constraints: seq<Constraint>, resources: Option<ResourceConstraint>)
    returns (r: Answer)
    ensures current.None? ==> r == Failed
    ensures current.Some? && Accepts(constraints, current.value) ==>
              r == match ResourceVerdict(resources)
                   case None => Failed
                   case Some(isMatch) => Verdict(isMatch)
    ensures current.Some? && !Accepts(constraints, current.value) ==>
              exists i: nat :: StopsAt(constraints, current.value, i)
                               && r == if constraints[i].Malformed? then NilConstraint else Verdict(false)
  {
    r := IsVersionAMatch(current, constraints);
    if r == Verdict(true) {
      var found := AreResourcesAMatch(resources);
      r := if found.None? then Failed else Verdict(found.value);
    } else if r.Verdict? {
      assert r == Verdict(false);
    }
  }

  // ----- what the verdict does and does not depend on -----

  ghost predicate Reordered<T>(s: seq<T>, t: seq<T>) {
    multiset(s) == multiset(t)
  }

  lemma ReorderedMembers<T>(s: seq<T>, t: seq<T>)
    requires Reordered(s, t)
    ensures forall x :: x in s <==> x in t
  {
    forall x ensures x in s <==> x in t {
      assert x in s <==> x in multiset(s);
    }
  }

  /** Without a script the cluster matches exactly when each selector finds at least one resource. */
  lemma MatchesExactly(outcomes: seq<Option<seq<Resource>>>)
    ensures SelectorVerdict(outcomes) == Some(true) <==> forall o <- outcomes :: Found(o)
  {
    var k := FirstMiss(outcomes);
    assert k < |outcomes| ==> outcomes[k] in outcomes;
  }

  /** A verdict other than true names an outcome that is there: an error for None, an empty one for false. */
  lemma MissIsThere(outcomes: seq<Option<seq<Resource>>>)
    ensures SelectorVerdict(outcomes) == None ==> None in outcomes
    ensures SelectorVerdict(outcomes) == Some(false) ==> Some([]) in outcomes
  {
    var k := FirstMiss(outcomes);
    if k < |outcomes| {
      assert outcomes[k] in outcomes;
      assert outcomes[k].Some? ==> outcomes[k].value == [];
    }
  }

  /** A match does not depend on the order of the selectors; no verdict does, unless one fails and another is empty. */
  lemma OrderDoesNotMatter(s: seq<Option<seq<Resource>>>, t: seq<Option<seq<Resource>>>)
    requires Reordered(s, t)
    ensures SelectorVerdict(s) == Some(true) <==> SelectorVerdict(t) == Some(true)
    ensures !(None in s && Some([]) in s) ==> SelectorVerdict(s) == SelectorVerdict(t)
  {
    ReorderedMembers(s, t);
    MatchesExactly(s);
    MatchesExactly(t);
    MissIsThere(s);
    MissIsThere(t);
  }

  lemma ToFront<T>(s: seq<T>, i: nat)
    requires i < |s|
    ensures Reordered(s, [s[i]] + (s[..i] + s[i + 1..]))
  {
    assert s == s[..i] + [s[i]] + s[i + 1..];
  }

  /** Where one selector fails and another is empty, each of the two verdicts is given by some order of the selectors. */
  lemma OrderDecides(s: seq<Option<seq<Resource>>>, front: Option<seq<Resource>>)
    requires None in s && Some([]) in s && (front == None || front == Some([]))
    ensures exists t :: Reordered(s, t) && SelectorVerdict(t) == if front.None? then None else Some(false)
  {
    var i :| 0 <= i < |s| && s[i] == front;
    ToFront(s, i);
    var t := [s[i]] + (s[..i] + s[i + 1..]);
    assert FirstMiss(t) == 0;
  }
}
