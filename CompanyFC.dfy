/** FCAppCompany of the companyAnnotatedFC TCK model: a company whose
    identity, order, equality and hash depend on its id alone, with a set
    of departments; and its application identity class Oid. */
module CompanyFC {
  import opened Wrappers

  // ---------------------------------------------------------------------
  // Java integers

  /** A Java `long`. */
  type Long = x: int | -0x8000_0000_0000_0000 <= x < 0x8000_0000_0000_0000

  /** A Java `int`. */
  type Int32 = x: int | -0x8000_0000 <= x < 0x8000_0000

  /** The `(int)` cast of a long: the low 32 bits read in two's
      complement. */
  function IntCast(x: Long): (r: Int32)
    ensures r % 0x1_0000_0000 == x % 0x1_0000_0000
    ensures -0x8000_0000 <= x < 0x8000_0000 ==> r == x
  {
    var low := x % 0x1_0000_0000;
    if low < 0x8000_0000 then low else low - 0x1_0000_0000
  }

  /** The cast keeps nothing but the low 32 bits: ids that differ by a
      multiple of 2^32 hash alike. */
  lemma IntCastWraps(x: Long, y: Long)
    requires x % 0x1_0000_0000 == y % 0x1_0000_0000
    ensures IntCast(x) == IntCast(y)
  {
  }

  /** Long.compare, and the comparison of two longs the TCK's equality
      helper performs: the sign of x - y. */
  function LongCompare(x: Long, y: Long): (r: int)
    ensures r < 0 <==> x < y
    ensures r == 0 <==> x == y
    ensures r > 0 <==> x > y
  {
    if x < y then -1 else if x == y then 0 else 1
  }

  // ---------------------------------------------------------------------
  // FCAppCompany

  /** A department, by identity. */
  type DepartmentRef = nat

  /** What the setters and the set operations throw. */
  datatype CompanyException = IllegalStateException | NullPointerException

  class Company {
    var companyid: Long
    var name: Option<string>
    /** The department set; null after setDepartments(null). */
    var departments: Option<set<DepartmentRef>>

    /** The no-argument constructor: id 0 and no departments. */
    constructor Default()
      ensures companyid == 0 && name.None? && departments == Some({})
    {
      companyid := 0;
      name := None;
      departments := Some({});
    }

    constructor (companyid: Long, name: Option<string>)
      ensures this.companyid == companyid && this.name == name && departments == Some({})
    {
      this.companyid := companyid;
      this.name := name;
      departments := Some({});
    }

    /** The id can be set once: an id already set (non-zero) makes the
        call throw and stay unchanged. */
    method SetCompanyid(id: Long) returns (outcome: Outcome<CompanyException>)
      modifies this
      ensures old(companyid) != 0 ==> outcome == Fail(IllegalStateException) && companyid == old(companyid)
      ensures old(companyid) == 0 ==> outcome == Pass && companyid == id
      ensures name == old(name) && departments == old(departments)
    {
      if companyid != 0 {
        return Fail(IllegalStateException);
      }
      companyid := id;
      return Pass;
    }

    /** Adds exactly `dept` to the departments. */
    method AddDepartment(dept: DepartmentRef) returns (outcome: Outcome<CompanyException>)
      modifies this
      ensures old(departments).None? ==> outcome == Fail(NullPointerException) && departments == old(departments)
      ensures old(departments).Some? ==> outcome == Pass && departments == Some(old(departments).value + {dept})
      ensures companyid == old(companyid) && name == old(name)
    {
      if departments.None? {
        return Fail(NullPointerException);
      }
      departments := Some(departments.value + {dept});
      return Pass;
    }

    /** Removes exactly `dept` from the departments. */
    method RemoveDepartment(dept: DepartmentRef) returns (outcome: Outcome<CompanyException>)
      modifies this
      ensures old(departments).None? ==> outcome == Fail(NullPointerException) && departments == old(departments)
      ensures old(departments).Some? ==> outcome == Pass && departments == Some(old(departments).value - {dept})
      ensures companyid == old(companyid) && name == old(name)
    {
      if departments.None? {
        return Fail(NullPointerException);
      }
      departments := Some(departments.value - {dept});
      return Pass;
    }

    /** Stores a copy of the given set, or null. */
    method SetDepartments(newDepartments: Option<set<DepartmentRef>>)
      modifies this
      ensures departments == newDepartments
      ensures companyid == old(companyid) && name == old(name)
    {
      departments := newDepartments;
    }

    /** hashCode: the id cast to int. */
    function HashCode(): (r: Int32)
      reads this
      ensures -0x8000_0000 <= companyid < 0x8000_0000 ==> r == companyid
      ensures r % 0x1_0000_0000 == companyid % 0x1_0000_0000
    {
      IntCast(companyid)
    }

    /** compareTo: the order of the ids. */
    function CompareTo(other: Company): (r: int)
      reads this, other
      ensures r < 0 <==> companyid < other.companyid
      ensures r == 0 <==> companyid == other.companyid
      ensures r > 0 <==> companyid > other.companyid
    {
      Compare(this, other)
    }

    /** equals: another company (any other object, or null, is given as
        None) whose id compares equal. */
    predicate Equals(obj: Option<Company>)
      reads this, if obj.Some? then {obj.value} else {}
      ensures Equals(obj) <==> obj.Some? && obj.value.companyid == companyid
    {
      obj.Some? && CompareTo(obj.value) == 0
    }
  }

  /** The static compare: the ids in Long order, nothing else. */
  function Compare(o1: Company, o2: Company): (r: int)
    reads o1, o2
    ensures r < 0 <==> o1.companyid < o2.companyid
    ensures r == 0 <==> o1.companyid == o2.companyid
  {
    LongCompare(o1.companyid, o2.companyid)
  }

  /** Equal companies have equal hash codes. */
  lemma EqualCompaniesHashAlike(a: Company, b: Company)
    requires a.Equals(Some(b))
    ensures a.HashCode() == b.HashCode()
  {
  }

  /** The comparison is antisymmetric and transitive. */
  lemma CompareIsAnOrder(a: Company, b: Company, c: Company)
    ensures Compare(a, b) < 0 <==> Compare(b, a) > 0
    ensures Compare(a, b) <= 0 && Compare(b, c) <= 0 ==> Compare(a, c) <= 0
  {
    assert Compare(b, a) > 0 <==> b.companyid > a.companyid by {
      assert LongCompare(b.companyid, a.companyid) == Compare(b, a);
    }
  }

  // ---------------------------------------------------------------------
  // FCAppCompany.Oid

  /** An identity object: its runtime class (Oid or a subclass) and its
      company id. */
  datatype Oid = Oid(runtimeClass: string, companyid: Long) {
    /** equals: a non-null object of the same runtime class with the same
        id. */
    predicate Equals(obj: Option<Oid>)
    {
      obj.Some? && runtimeClass == obj.value.runtimeClass && companyid == obj.value.companyid
    }

    /** hashCode: the id cast to int. */
    function HashCode(): (r: Int32)
      ensures -0x8000_0000 <= companyid < 0x8000_0000 ==> r == companyid
    {
      IntCast(companyid)
    }

    /** compareTo: Long.compare on the ids. */
    function CompareTo(other: Oid): (r: int)
      ensures r < 0 <==> companyid < other.companyid
      ensures r == 0 <==> companyid == other.companyid
      ensures r > 0 <==> companyid > other.companyid
    {
      LongCompare(companyid, other.companyid)
    }
  }

  /** Oid.equals is an equivalence on non-null objects, and equal
      identities hash alike and compare as equal. */
  lemma OidEqualsIsEquivalence(a: Oid, b: Oid, c: Oid)
    ensures a.Equals(Some(a))
    ensures a.Equals(Some(b)) <==> b.Equals(Some(a))
    ensures a.Equals(Some(b)) && b.Equals(Some(c)) ==> a.Equals(Some(c))
    ensures a.Equals(Some(b)) ==> a.HashCode() == b.HashCode() && a.CompareTo(b) == 0
    ensures !a.Equals(None)
  {
  }

  /** String.indexOf for a char: the first position of `c`, or -1. */
  function IndexOf(s: string, c: char): (r: int)
    ensures -1 <= r < |s|
    ensures r == -1 <==> c !in s
    ensures r >= 0 ==> s[r] == c && c !in s[..r]
  {
    if |s| == 0 then -1
    else if s[0] == c then 0
    else
      var r := IndexOf(s[1..], c);
      assert r >= 0 ==> s[..r + 1] == [s[0]] + s[1..][..r];
      if r == -1 then -1 else r + 1
  }

  /** justTheId: what follows the first ':', or the whole string when
      there is none. */
  function JustTheId(s: string): (r: string)
    ensures ':' !in s ==> r == s
    ensures ':' in s ==> exists k :: 0 <= k < |s| && s[k] == ':' && ':' !in s[..k] && r == s[k + 1..]
  {
    s[IndexOf(s, ':') + 1..]
  }

  // Long.toString and Long.parseLong, for the String form of an Oid.

  function DigitChar(d: int): char
    requires 0 <= d < 10
  {
    "0123456789"[d]
  }

  /** An ASCII decimal digit. */
  predicate IsDigit(c: char) {
    '0' <= c <= '9'
  }

  predicate AllDigits(s: string) {
    forall k :: 0 <= k < |s| ==> IsDigit(s[k])
  }

  /** The decimal digits of `n`, most significant first. */
  function NatDigits(n: nat): (r: string)
    ensures |r| > 0 && AllDigits(r)
    decreases n
  {
    if n < 10 then [DigitChar(n)] else NatDigits(n / 10) + [DigitChar(n % 10)]
  }

  /** Long.toString. */
  function LongToString(x: Long): string {
    if x < 0 then "-" + NatDigits(-(x as int)) else NatDigits(x)
  }

  /** The value of a string of decimal digits. */
  function DigitsValue(s: string): nat
    requires AllDigits(s)
    decreases |s|
  {
    if |s| == 0 then 0
    else
      assert IsDigit(s[|s| - 1]);
      DigitsValue(s[..|s| - 1]) * 10 + (s[|s| - 1] as int - '0' as int)
  }

  /** The value of a non-empty run of decimal digits; None for anything
      else. */
  function ParseDigits(digits: string): (r: Option<nat>)
    ensures r.Some? <==> |digits| > 0 && AllDigits(digits)
  {
    if |digits| == 0 || !AllDigits(digits) then None else Some(DigitsValue(digits))
  }

  /** Long.parseLong: an optional sign and at least one ASCII decimal
      digit, with a value in the long range; anything else is a
      NumberFormatException (None). */
  function ParseLong(s: string): (r: Option<Long>)
    ensures r.Some? ==> |s| > 0 && (s[0] == '-' || s[0] == '+' || IsDigit(s[0]))
    ensures r.Some? ==> (s[0] == '-' || s[0] == '+' ==> |s| > 1 && AllDigits(s[1..]))
                        && (s[0] != '-' && s[0] != '+' ==> AllDigits(s))
    ensures |s| > 0 && AllDigits(s) ==>
              r == if DigitsValue(s) < 0x8000_0000_0000_0000 then Some(DigitsValue(s)) else None
    ensures |s| > 1 && s[0] == '+' && AllDigits(s[1..]) ==>
              r == if DigitsValue(s[1..]) < 0x8000_0000_0000_0000 then Some(DigitsValue(s[1..])) else None
    ensures |s| > 1 && s[0] == '-' && AllDigits(s[1..]) ==>
              r == if DigitsValue(s[1..]) <= 0x8000_0000_0000_0000 then Some(-(DigitsValue(s[1..]) as int)) else None
  {
    if |s| == 0 then None
    else
      var start := if s[0] == '-' || s[0] == '+' then 1 else 0;
      match ParseDigits(s[start..])
      case None => None
      case Some(m) =>
        var v: int := if s[0] == '-' then -(m as int) else m;
        if -0x8000_0000_0000_0000 <= v < 0x8000_0000_0000_0000 then Some(v) else None
  }

  lemma {:induction false} DigitsValueOfNatDigits(n: nat)
    ensures DigitsValue(NatDigits(n)) == n
    decreases n
  {
    if n >= 10 {
      var s := NatDigits(n);
      assert s[..|s| - 1] == NatDigits(n / 10);
      DigitsValueOfNatDigits(n / 10);
    }
  }

  /** The digits of `n` read back as `n`. */
  lemma ParseDigitsOfNatDigits(n: nat)
    ensures ParseDigits(NatDigits(n)) == Some(n)
  {
    DigitsValueOfNatDigits(n);
  }

  /** Long.parseLong reads back what Long.toString writes. */
  lemma ParseLongOfToString(x: Long)
    ensures ParseLong(LongToString(x)) == Some(x)
  {
    var s := LongToString(x);
    if x < 0 {
      var n: nat := -(x as int);
      ParseDigitsOfNatDigits(n);
      assert s[1..] == NatDigits(n);
    } else {
      ParseDigitsOfNatDigits(x);
      assert IsDigit(s[0]);
      assert s[0..] == NatDigits(x);
    }
  }

  /** Oid.toString: the runtime class name, ": " and the id. */
  function OidToString(oid: Oid): string {
    oid.runtimeClass + ": " + LongToString(oid.companyid)
  }

  /** The Oid(String) constructor: the id parsed from justTheId(s); None
      is the NumberFormatException of Long.parseLong. */
  function OidOfString(runtimeClass: string, s: string): (r: Option<Oid>)
    ensures r.Some? ==> r.value.runtimeClass == runtimeClass
    ensures r.None? <==> ParseLong(JustTheId(s)).None?
  {
    var id := ParseLong(JustTheId(s));
    if id.Some? then Some(Oid(runtimeClass, id.value)) else None
  }

  /** The first `c` of `p + q`, when `p` has none and `q` starts with one,
      is where `q` starts. */
  lemma {:induction false} IndexOfPastPrefix(p: string, q: string, c: char)
    requires c !in p && |q| > 0 && q[0] == c
    ensures IndexOf(p + q, c) == |p|
    decreases |p|
  {
    if |p| > 0 {
      assert (p + q)[1..] == p[1..] + q;
      IndexOfPastPrefix(p[1..], q, c);
    }
  }

  /** Oid(String) reads the id after the first colon: a runtime class
      name without a colon, ':' and a long give back that long. */
  lemma OidOfStringReadsColonForm(runtimeClass: string, x: Long)
    requires ':' !in runtimeClass
    ensures OidOfString(runtimeClass, runtimeClass + ":" + LongToString(x)) == Some(Oid(runtimeClass, x))
  {
    var s := runtimeClass + ":" + LongToString(x);
    assert s == runtimeClass + (":" + LongToString(x));
    IndexOfPastPrefix(runtimeClass, ":" + LongToString(x), ':');
    assert JustTheId(s) == LongToString(x);
    ParseLongOfToString(x);
  }

  /** Without a colon the whole string is the id: the decimal form of a
      long alone gives back that long. */
  lemma OidOfStringReadsBareId(runtimeClass: string, x: Long)
    ensures OidOfString(runtimeClass, LongToString(x)) == Some(Oid(runtimeClass, x))
  {
    var s := LongToString(x);
    assert ':' !in s by {
      if x < 0 {
        assert s == "-" + NatDigits(-(x as int));
        assert forall k :: 1 <= k < |s| ==> IsDigit(s[k]) by {
          forall k | 1 <= k < |s| ensures IsDigit(s[k]) {
            assert s[k] == NatDigits(-(x as int))[k - 1];
          }
        }
      }
    }
    ParseLongOfToString(x);
  }

  /** The string form of an Oid is not accepted by the Oid(String)
      constructor: after the colon comes a blank, which Long.parseLong
      refuses. */
  lemma OidStringNotParsed(oid: Oid)
    requires ':' !in oid.runtimeClass
    ensures OidOfString(oid.runtimeClass, OidToString(oid)).None?
  {
    var tail := ": " + LongToString(oid.companyid);
    assert OidToString(oid) == oid.runtimeClass + tail;
    IndexOfPastPrefix(oid.runtimeClass, tail, ':');
    assert JustTheId(OidToString(oid))[0] == ' ';
  }
}
