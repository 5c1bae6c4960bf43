/** Amazon Resource Names (kumostack/core/arn.py). */
module Arn {
  import opened Text

  datatype Arn = Arn(partition: string, service: string, region: string, accountId: string, resource: string)

  datatype ParseResult = Parsed(arn: Arn) | InvalidPrefix | NotEnoughSections

  const PREFIX := "arn:"
  const SECTIONS := 6

  function Parse(value: string): ParseResult {
    if !(PREFIX <= value) then InvalidPrefix
    else
      var sections := SplitMax(value, ':', SECTIONS - 1);
      if |sections| != SECTIONS then NotEnoughSections
      else Parsed(Arn(sections[1], sections[2], sections[3], sections[4], sections[5]))
  }

  function Print(a: Arn): string {
    PREFIX + a.partition + ":" + a.service + ":" + a.region + ":" + a.accountId + ":" + a.resource
  }

  predicate IsArn(value: string) {
    PREFIX <= value && Count(value, ':') >= SECTIONS - 1
  }

  function Sections(a: Arn): seq<string> {
    ["arn", a.partition, a.service, a.region, a.accountId, a.resource]
  }

  lemma PrintIsJoin(a: Arn)
    ensures Print(a) == Join(Sections(a), ':')
  {
    JoinStep("arn", [a.partition, a.service, a.region, a.accountId, a.resource], ':');
    JoinStep(a.partition, [a.service, a.region, a.accountId, a.resource], ':');
    JoinStep(a.service, [a.region, a.accountId, a.resource], ':');
    JoinStep(a.region, [a.accountId, a.resource], ':');
    JoinStep(a.accountId, [a.resource], ':');
    assert Sections(a) == ["arn"] + [a.partition, a.service, a.region, a.accountId, a.resource];
    assert [a.partition, a.service, a.region, a.accountId, a.resource] ==
           [a.partition] + [a.service, a.region, a.accountId, a.resource];
    assert [a.service, a.region, a.accountId, a.resource] == [a.service] + [a.region, a.accountId, a.resource];
    assert [a.region, a.accountId, a.resource] == [a.region] + [a.accountId, a.resource];
    assert [a.accountId, a.resource] == [a.accountId] + [a.resource];
  }

  // ---------------------------------------------------------------------
  // Parsing and printing
  // ---------------------------------------------------------------------

  lemma FirstSection(value: string)
    requires PREFIX <= value
    ensures SplitMax(value, ':', 5)[0] == "arn"
  {
    assert value == "arn" + [':'] + value[4..];
    SplitStep("arn", value[4..], ':', 5);
  }

  lemma SixSections(q: seq<string>)
    requires |q| == 6 && q[0] == "arn"
    ensures q == Sections(Arn(q[1], q[2], q[3], q[4], q[5]))
  {
  }

  /** Printing a parsed string gives the string back. */
  lemma PrintParsed(value: string)
    requires Parse(value).Parsed?
    ensures Print(Parse(value).arn) == value
  {
    FirstSection(value);
    SixSections(SplitMax(value, ':', 5));
    JoinSplit(value, ':', 5);
    PrintIsJoin(Parse(value).arn);
  }

  ghost predicate HeaderHasNoColon(a: Arn) {
    ':' !in a.partition && ':' !in a.service && ':' !in a.region && ':' !in a.accountId
  }

  /** Parsing a printed record gives the record back exactly when none of its first four
      fields contains a colon; the resource may contain any. */
  lemma ParsePrinted(a: Arn)
    ensures Parse(Print(a)) == Parsed(a) <==> HeaderHasNoColon(a)
  {
    var p := Sections(a);
    PrintIsJoin(a);
    assert PREFIX <= Print(a);
    if HeaderHasNoColon(a) {
      SplitJoin(p, ':', 5);
    }
    if Parse(Print(a)) == Parsed(a) {
      var q := SplitMax(Print(a), ':', 5);
      SplitPartsClean(Print(a), ':', 5, 1);
      SplitPartsClean(Print(a), ':', 5, 2);
      SplitPartsClean(Print(a), ':', 5, 3);
      SplitPartsClean(Print(a), ':', 5, 4);
    }
  }

  lemma IsArnExactlyWhenParsed(value: string)
    ensures IsArn(value) <==> Parse(value).Parsed?
  {
    SplitCount(value, ':', 5);
  }
}
