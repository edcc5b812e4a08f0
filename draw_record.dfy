/**
 * One market's result for one draw: six distinct numbers from 1..99, each
 * written with two digits, one of them taken out as `head` and the other five
 * joined with commas as `specials`.
 */
module DrawRecord {
  import opened Digits

  /** The numbers `random.sample(range(1, 100), 6)` returned and the index `random.randint(0, 5)` chose. */
  datatype Sample = Sample(numbers: seq<int>, headIndex: int)

  /** A stored result: the columns `head` and `specials` of a row. */
  datatype Record = Record(head: string, specials: string)

  const SampleSize: nat := 6
  const Lowest: int := 1
  const Highest: int := 99

  /** Widths of the `head` and `specials` columns. */
  const HeadWidth: nat := 2
  const SpecialsWidth: nat := 20

  /** What the library calls guarantee: six pairwise distinct numbers in [1, 99] and an index in 0..5. */
  predicate ValidSample(s: Sample) {
    && |s.numbers| == SampleSize
    && (forall i :: 0 <= i < |s.numbers| ==> Lowest <= s.numbers[i] <= Highest)
    && (forall i, j :: 0 <= i < j < |s.numbers| ==> s.numbers[i] != s.numbers[j])
    && 0 <= s.headIndex < SampleSize
  }

  predicate Distinct<T(==)>(xs: seq<T>) {
    forall i, j :: 0 <= i < j < |xs| ==> xs[i] != xs[j]
  }

  /** `[f"{n:02d}" for n in numbers]`. */
  function Format(numbers: seq<int>): (f: seq<string>)
    requires forall i :: 0 <= i < |numbers| ==> 0 <= numbers[i] < 100
    ensures |f| == |numbers|
    ensures forall i :: 0 <= i < |f| ==> f[i] == Pad2(numbers[i])
  {
    seq(|numbers|, i requires 0 <= i < |numbers| => Pad2(numbers[i]))
  }

  /** Python's `xs.pop(i)`: the element taken out and the list left behind. */
  function Pop<T>(xs: seq<T>, i: nat): (r: (T, seq<T>))
    requires i < |xs|
    ensures |r.1| == |xs| - 1
    ensures r.1[..i] + [r.0] + r.1[i..] == xs
  {
    assert xs == xs[..i] + [xs[i]] + xs[i + 1..];
    (xs[i], xs[..i] + xs[i + 1..])
  }

  /** `",".join(parts)`. */
  function Join(parts: seq<string>): (s: string)
  {
    if |parts| == 0 then ""
    else if |parts| == 1 then parts[0]
    else parts[0] + "," + Join(parts[1..])
  }

  /** `s.split(",")`: the comma-separated fields of `s`. */
  function Split(s: string): (parts: seq<string>)
    ensures |parts| >= 1
  {
    if s == [] then [""]
    else
      var rest := Split(s[1..]);
      if s[0] == ',' then [""] + rest
      else [[s[0]] + rest[0]] + rest[1..]
  }

  predicate NoComma(s: string) {
    forall i :: 0 <= i < |s| ==> s[i] != ','
  }

  /** A field as the generator writes it: two digits denoting a number in [1, 99]. */
  predicate WellFormedNumber(t: string) {
    |t| == 2 && AllDigits(t) && Lowest <= DigitsValue(t) <= Highest
  }

  /** A record as the generator writes it: a head and five fields, six distinct well-formed numbers. */
  predicate WellFormedRecord(r: Record) {
    var fields := Split(r.specials);
    && |fields| == SampleSize - 1
    && WellFormedNumber(r.head)
    && (forall i :: 0 <= i < |fields| ==> WellFormedNumber(fields[i]))
    && Distinct([r.head] + fields)
  }

  /** The record the generator builds from one sample. */
  function MakeRecord(s: Sample): (r: Record)
    requires ValidSample(s)
    ensures |r.head| == HeadWidth && |r.specials| == 14
  {
    var (head, rest) := Pop(Format(s.numbers), s.headIndex);
    JoinLength(rest, 2);
    Record(head, Join(rest))
  }

  /** The six numbers a record holds, with the head put back at `headIndex`. */
  function Numbers(r: Record, headIndex: nat): (numbers: seq<string>)
    requires headIndex <= |Split(r.specials)|
    ensures |numbers| == |Split(r.specials)| + 1
  {
    var fields := Split(r.specials);
    fields[..headIndex] + [r.head] + fields[headIndex..]
  }

  /** A field without commas is split into itself. */
  lemma {:induction false} SplitNoComma(p: string)
    requires NoComma(p)
    ensures Split(p) == [p]
  {
    if p != [] {
      SplitNoComma(p[1..]);
      assert [p[0]] + p[1..] == p;
    }
  }

  /** Splitting at the first comma peels off the field before it. */
  lemma {:induction false} SplitAtComma(p: string, q: string)
    requires NoComma(p)
    ensures Split(p + "," + q) == [p] + Split(q)
  {
    if p == [] {
      assert ("" + "," + q)[1..] == q;
    } else {
      assert (p + "," + q)[1..] == p[1..] + "," + q;
      SplitAtComma(p[1..], q);
      assert [p[0]] + p[1..] == p;
    }
  }

  /** Splitting undoes joining when no field holds a comma and there is at least one field. */
  lemma {:induction false} SplitJoin(parts: seq<string>)
    requires |parts| >= 1
    requires forall i :: 0 <= i < |parts| ==> NoComma(parts[i])
    ensures Split(Join(parts)) == parts
  {
    if |parts| == 1 {
      SplitNoComma(parts[0]);
    } else {
      SplitAtComma(parts[0], Join(parts[1..]));
      SplitJoin(parts[1..]);
      assert [parts[0]] + parts[1..] == parts;
    }
  }

  /** Joining fields of `w` characters each takes `w` characters per field and one per comma. */
  lemma {:induction false} JoinLength(parts: seq<string>, w: nat)
    requires |parts| >= 1
    requires forall i :: 0 <= i < |parts| ==> |parts[i]| == w
    ensures |Join(parts)| == |parts| * (w + 1) - 1
  {
    if |parts| > 1 {
      JoinLength(parts[1..], w);
    }
  }

  /** Distinct numbers below 100 format to distinct strings. */
  lemma FormatDistinct(numbers: seq<int>)
    requires forall i :: 0 <= i < |numbers| ==> 0 <= numbers[i] < 100
    requires Distinct(numbers)
    ensures Distinct(Format(numbers))
  {
    var f := Format(numbers);
    forall i, j | 0 <= i < j < |f| ensures f[i] != f[j] {
      PadDigitsInjective(numbers[i], numbers[j], 2);
    }
  }

  /**
   * The record keeps exactly the six formatted numbers: the head is the one
   * at the chosen index, the specials are the other five in their sampled
   * order, and reading each back gives the sampled number.
   */
  lemma MakeRecordKeepsNumbers(s: Sample)
    requires ValidSample(s)
    ensures var r := MakeRecord(s);
      && r.head == Format(s.numbers)[s.headIndex]
      && Split(r.specials) == Pop(Format(s.numbers), s.headIndex).1
      && Numbers(r, s.headIndex) == Format(s.numbers)
      && forall i :: 0 <= i < SampleSize ==> DigitsValue(Numbers(r, s.headIndex)[i]) == s.numbers[i]
  {
    var f := Format(s.numbers);
    var (head, rest) := Pop(f, s.headIndex);
    forall i | 0 <= i < |rest| ensures NoComma(rest[i]) {
      assert AllDigits(rest[i]);
    }
    SplitJoin(rest);
    forall i | 0 <= i < SampleSize ensures DigitsValue(f[i]) == s.numbers[i] {
      PadDigitsRoundTrip(s.numbers[i], 2);
    }
  }

  /** Taking one element out to the front keeps a list free of repeats. */
  lemma PopDistinct<T>(xs: seq<T>, i: nat)
    requires i < |xs| && Distinct(xs)
    ensures var (x, rest) := Pop(xs, i); Distinct([x] + rest)
  {
  }

  /** Every record the generator builds is well formed and fits its columns. */
  lemma MakeRecordWellFormed(s: Sample)
    requires ValidSample(s)
    ensures var r := MakeRecord(s);
      && WellFormedRecord(r)
      && |r.head| == HeadWidth
      && |r.specials| == 14 <= SpecialsWidth
  {
    var f := Format(s.numbers);
    var (head, rest) := Pop(f, s.headIndex);
    MakeRecordKeepsNumbers(s);
    FormatDistinct(s.numbers);
    PopDistinct(f, s.headIndex);
    JoinLength(rest, 2);
    forall k | 0 <= k < SampleSize ensures WellFormedNumber(f[k]) {
      PadDigitsRoundTrip(s.numbers[k], 2);
    }
    assert forall k :: 0 <= k < |rest| ==> rest[k] in f;
  }
}
