/** The signed block of a balance statement: its printer, a parser for it, and the proof that the
    parser accepts exactly the printed blocks and recovers every input from them. */
module Statement {
  import opened Wrappers
  import opened MachineInts
  import opened Text
  import opened Decimal

  const STATEMENT_VERSION: U32 := 1

  type Month = x: int | 1 <= x <= 12 witness 1
  type Day = x: int | 1 <= x <= 31 witness 1
  type Hour = x: int | 0 <= x < 24
  type Minute = x: int | 0 <= x < 60
  /** 60 is a leap second. */
  type Second = x: int | 0 <= x <= 60

  /** A UTC time to the second. The year is unbounded in both directions. */
  datatype Time = Time(year: int, month: Month, day: Day, hour: Hour, minute: Minute, second: Second)

  datatype BalanceStatementInputs = BalanceStatementInputs(
    nodeId: string,
    network: string,
    statementTime: Time,
    blockHeight: U32,
    onchainConfirmedMsat: I64,
    onchainUnconfirmedMsat: I64,
    onchainReservedMsat: I64,
    onchainImmatureMsat: I64,
    lightningOpenMsat: I64,
    lightningPendingMsat: I64)
  {
    function TotalMsat(): I64 { WrapI64(onchainConfirmedMsat + lightningOpenMsat) }

    ghost predicate SingleLine() { FreeOf('\n', nodeId) && FreeOf('\n', network) }
  }

  // ----- RFC 3339 time, section 5.6

  /** Four digits in 0..9999, a sign and at least four digits outside. */
  function YearText(year: int): string
  {
    if 0 <= year < 10000 then Padded(year, 4)
    else if year < 0 then "-" + Padded(-year, 4)
    else "+" + Padded(year, 4)
  }

  function TimeText(t: Time): string {
    YearText(t.year) + "-" + Padded(t.month, 2) + "-" + Padded(t.day, 2)
    + "T" + Padded(t.hour, 2) + ":" + Padded(t.minute, 2) + ":" + Padded(t.second, 2) + "Z"
  }

  function TwoDigits(s: string, at: nat): (r: Option<int>)
    requires at + 2 <= |s|
  {
    if AllDigits(s[at..at + 2]) then Some(DigitsValue(s[at..at + 2])) else None
  }

  function ParseYear(s: string): Option<int> {
    if s == "" then None
    else if s[0] == '-' || s[0] == '+' then
      if !AllDigits(s[1..]) then None
      else
        var value: int := DigitsValue(s[1..]);
        Some(if s[0] == '-' then -value else value)
    else if AllDigits(s) then Some(DigitsValue(s))
    else None
  }

  /** The last 16 characters have fixed positions; what precedes them is the year. */
  function ParseTime(s: string): (r: Option<Time>)
    ensures r.Some? ==> TimeText(r.value) == s
  {
    if |s| < 16 then None
    else
      var y := |s| - 16;
      var year :- ParseYear(s[..y]);
      var month :- TwoDigits(s, y + 1);
      var day :- TwoDigits(s, y + 4);
      var hour :- TwoDigits(s, y + 7);
      var minute :- TwoDigits(s, y + 10);
      var second :- TwoDigits(s, y + 13);
      if 1 <= month <= 12 && 1 <= day <= 31 && hour < 24 && 0 <= hour && 0 <= minute < 60 && 0 <= second <= 60 then
        var t := Time(year, month, day, hour, minute, second);
        if TimeText(t) == s then Some(t) else None
      else None
  }

  lemma {:induction false} ParseYearText(year: int)
    ensures ParseYear(YearText(year)) == Some(year)
  {
    var digits := Padded(if year < 0 then -year else year, 4);
    PaddedValue(if year < 0 then -year else year, 4);
    if 0 <= year < 10000 {
      assert IsDigit(digits[0]);
    } else {
      assert YearText(year)[1..] == digits;
    }
  }

  lemma {:induction false} TimeLayout(t: Time)
    ensures var s, y := TimeText(t), |YearText(t.year)|;
            && |s| == y + 16
            && s[..y] == YearText(t.year)
            && s[y + 1..y + 3] == Padded(t.month, 2)
            && s[y + 4..y + 6] == Padded(t.day, 2)
            && s[y + 7..y + 9] == Padded(t.hour, 2)
            && s[y + 10..y + 12] == Padded(t.minute, 2)
            && s[y + 13..y + 15] == Padded(t.second, 2)
  {
    hide NatText, Padded, YearText;
    PaddedWidth(t.month);
    PaddedWidth(t.day);
    PaddedWidth(t.hour);
    PaddedWidth(t.minute);
    PaddedWidth(t.second);
  }

  lemma {:induction false} ParseTimeText(t: Time)
    ensures ParseTime(TimeText(t)) == Some(t)
  {
    hide NatText, Padded, YearText, ParseYear, DigitsValue;
    TimeLayout(t);
    ParseYearText(t.year);
    PaddedValue(t.month, 2);
    PaddedValue(t.day, 2);
    PaddedValue(t.hour, 2);
    PaddedValue(t.minute, 2);
    PaddedValue(t.second, 2);
  }

  lemma {:induction false} FreeOfConcat(a: string, b: string)
    requires FreeOf('\n', a) && FreeOf('\n', b)
    ensures FreeOf('\n', a + b)
  {
  }

  lemma {:induction false} DigitsSingle(s: string)
    requires AllDigits(s)
    ensures FreeOf('\n', s)
  {
  }

  lemma {:induction false} SeparatedSingle(a: string, separator: char, b: string)
    requires FreeOf('\n', a) && separator != '\n' && AllDigits(b)
    ensures FreeOf('\n', a + [separator] + b)
  {
  }

  lemma {:induction false} YearTextSingle(year: int)
    ensures FreeOf('\n', YearText(year))
  {
    hide Padded, NatText;
    DigitsSingle(Padded(if year < 0 then -year else year, 4));
  }

  lemma {:induction false} TimeTextSingleLine(t: Time)
    ensures FreeOf('\n', TimeText(t))
  {
    hide FreeOf, AllDigits, YearText, Padded;
    var s := YearText(t.year);
    YearTextSingle(t.year);
    SeparatedSingle(s, '-', Padded(t.month, 2));
    s := s + "-" + Padded(t.month, 2);
    SeparatedSingle(s, '-', Padded(t.day, 2));
    s := s + "-" + Padded(t.day, 2);
    SeparatedSingle(s, 'T', Padded(t.hour, 2));
    s := s + "T" + Padded(t.hour, 2);
    SeparatedSingle(s, ':', Padded(t.minute, 2));
    s := s + ":" + Padded(t.minute, 2);
    SeparatedSingle(s, ':', Padded(t.second, 2));
    s := s + ":" + Padded(t.second, 2);
    assert FreeOf('\n', "Z") by {
      OnlyChar('Z');
    }
    FreeOfConcat(s, "Z");
  }

  lemma {:induction false} OnlyChar(c: char)
    requires c != '\n'
    ensures FreeOf('\n', [c])
  {
  }

  // ----- the block

  /** The fixed text of the block. The lemmas below hold for any single-line layout. */
  datatype Layout = Layout(
    heading: string,
    version: string,
    nodeId: string,
    network: string,
    time: string,
    height: string,
    onchain: string,
    onchainNote: string,
    lightning: string,
    lightningNote: string,
    total: string,
    msats: string,
    accounting: string,
    excluded: string,
    unconfirmed: string,
    reserved: string,
    immature: string,
    pending: string)
  {
    ghost predicate SingleLine() {
      && FreeOf('\n', version) && FreeOf('\n', nodeId) && FreeOf('\n', network)
      && FreeOf('\n', time) && FreeOf('\n', height)
      && FreeOf('\n', onchain) && FreeOf('\n', onchainNote)
      && FreeOf('\n', lightning) && FreeOf('\n', lightningNote)
      && FreeOf('\n', total) && FreeOf('\n', msats)
      && FreeOf('\n', accounting) && FreeOf('\n', excluded)
      && FreeOf('\n', unconfirmed) && FreeOf('\n', reserved)
      && FreeOf('\n', immature) && FreeOf('\n', pending)
    }
  }

  /** A bullet with its caption left-aligned in 36 columns. */
  function Bullet(caption: string): string {
    "  - " + caption + (if |caption| < 36 then seq(36 - |caption|, _ => ' ') else "")
  }

  function StatementLayout(): Layout {
    Layout(
      heading := " node balance statement",
      version := "Statement version:    " + IntText(STATEMENT_VERSION),
      nodeId := "Node ID:              ",
      network := "Network:              ",
      time := "Statement time:       ",
      height := "Block height:         ",
      onchain := "On-chain balance:     ",
      onchainNote := " msats  (confirmed, spendable by this node)",
      lightning := "Lightning balance:    ",
      lightningNote := " msats  (this node's side of open channels)",
      total := "Total under control:  ",
      msats := " msats",
      accounting := "Accounting data:      none",
      excluded := "Excluded from totals:",
      unconfirmed := Bullet("Unconfirmed on-chain:"),
      reserved := Bullet("Reserved on-chain UTXOs:"),
      immature := Bullet("Immature on-chain, e.g. coinbase:"),
      pending := Bullet("Pending channels, opening/closing:"))
  }

  function AmountLine(caption: string, x: I64, note: string): string {
    caption + IntText(x) + note
  }

  function HeightLine(caption: string, height: U32): string {
    caption + IntText(height)
  }

  function IdentityLines(l: Layout, nodeId: string, network: string, time: Time, height: U32): (r: seq<string>)
    ensures |r| == 7
  {
    [ "", l.version, l.nodeId + nodeId, l.network + network, l.time + TimeText(time), HeightLine(l.height, height), "" ]
  }

  function BalanceLines(l: Layout, confirmed: I64, lightning: I64, total: I64): (r: seq<string>)
    ensures |r| == 7
  {
    [ AmountLine(l.onchain, confirmed, l.onchainNote),
      AmountLine(l.lightning, lightning, l.lightningNote),
      AmountLine(l.total, total, l.msats),
      "",
      l.accounting,
      "",
      l.excluded ]
  }

  function ExclusionLines(l: Layout, unconfirmed: I64, reserved: I64, immature: I64, pending: I64): (r: seq<string>)
    ensures |r| == 4
  {
    [ AmountLine(l.unconfirmed, unconfirmed, l.msats),
      AmountLine(l.reserved, reserved, l.msats),
      AmountLine(l.immature, immature, l.msats),
      AmountLine(l.pending, pending, l.msats) ]
  }

  /** The 18 lines after the heading. */
  function FieldLines(l: Layout, x: BalanceStatementInputs): (r: seq<string>)
    ensures |r| == 18
  {
    IdentityLines(l, x.nodeId, x.network, x.statementTime, x.blockHeight)
    + BalanceLines(l, x.onchainConfirmedMsat, x.lightningOpenMsat, x.TotalMsat())
    + ExclusionLines(l, x.onchainUnconfirmedMsat, x.onchainReservedMsat, x.onchainImmatureMsat, x.lightningPendingMsat)
  }

  function BlockText(l: Layout, serviceName: string, x: BalanceStatementInputs): string {
    Join([serviceName + l.heading] + FieldLines(l, x))
  }

  function BuildMessageBlock(serviceName: string, inputs: BalanceStatementInputs): string {
    BlockText(StatementLayout(), serviceName, inputs)
  }

  // ----- the parser

  /** An amount printed between a caption and a note. */
  function ParseAmount(line: string, caption: string, note: string): (r: Option<I64>)
    ensures r.Some? ==> line == AmountLine(caption, r.value, note)
  {
    var digits :- Between(line, caption, note);
    var x :- ParseInt(digits);
    if InI64(x) then Some(x) else None
  }

  lemma {:induction false} ParseAmountOf(caption: string, x: I64, note: string)
    ensures ParseAmount(AmountLine(caption, x, note), caption, note) == Some(x)
  {
    BetweenOf(caption, IntText(x), note);
    ParseIntText(x);
  }

  function ParseHeight(line: string, caption: string): (r: Option<U32>)
    ensures r.Some? ==> line == HeightLine(caption, r.value)
  {
    var digits :- StripPrefix(line, caption);
    var x :- ParseInt(digits);
    if 0 <= x < TWO_32 then Some(x) else None
  }

  lemma {:induction false} ParseHeightOf(caption: string, height: U32)
    ensures ParseHeight(HeightLine(caption, height), caption) == Some(height)
  {
    ParseIntText(height);
  }

  function ParseIdentity(l: Layout, ls: seq<string>): Option<(string, string, Time, U32)>
    requires |ls| == 7
  {
    if !(ls[0] == ls[6] == "" && ls[1] == l.version) then None
    else
      var nodeId :- StripPrefix(ls[2], l.nodeId);
      var network :- StripPrefix(ls[3], l.network);
      var timeText :- StripPrefix(ls[4], l.time);
      var time :- ParseTime(timeText);
      var height :- ParseHeight(ls[5], l.height);
      Some((nodeId, network, time, height))
  }

  function ParseBalances(l: Layout, ls: seq<string>): Option<(I64, I64, I64)>
    requires |ls| == 7
  {
    if !(ls[3] == ls[5] == "" && ls[4] == l.accounting && ls[6] == l.excluded) then None
    else
      var confirmed :- ParseAmount(ls[0], l.onchain, l.onchainNote);
      var lightning :- ParseAmount(ls[1], l.lightning, l.lightningNote);
      var total :- ParseAmount(ls[2], l.total, l.msats);
      Some((confirmed, lightning, total))
  }

  function ParseExclusions(l: Layout, ls: seq<string>): Option<(I64, I64, I64, I64)>
    requires |ls| == 4
  {
    var unconfirmed :- ParseAmount(ls[0], l.unconfirmed, l.msats);
    var reserved :- ParseAmount(ls[1], l.reserved, l.msats);
    var immature :- ParseAmount(ls[2], l.immature, l.msats);
    var pending :- ParseAmount(ls[3], l.pending, l.msats);
    Some((unconfirmed, reserved, immature, pending))
  }

  function ParseFields(l: Layout, ls: seq<string>): Option<BalanceStatementInputs>
    requires |ls| == 18
  {
    var identity :- ParseIdentity(l, ls[..7]);
    var balances :- ParseBalances(l, ls[7..14]);
    var exclusions :- ParseExclusions(l, ls[14..]);
    var x := BalanceStatementInputs(identity.0, identity.1, identity.2, identity.3,
                                    balances.0, exclusions.0, exclusions.1, exclusions.2,
                                    balances.1, exclusions.3);
    if balances.2 == x.TotalMsat() then Some(x) else None
  }

  function ParseText(l: Layout, text: string): Option<(string, BalanceStatementInputs)> {
    var lines := Lines(text);
    if |lines| < 19 then None
    else
      var k := |lines| - 18;
      var serviceName :- Between(Join(lines[..k]), "", l.heading);
      var inputs :- ParseFields(l, lines[k..]);
      Some((serviceName, inputs))
  }

  /** The last 18 lines are the fields; all text before them is the heading, which may itself
      span several lines. */
  function ParseMessageBlock(text: string): Option<(string, BalanceStatementInputs)> {
    ParseText(StatementLayout(), text)
  }

  // ----- printing is invertible

  lemma {:induction false} ParsedIdentityPrints(l: Layout, ls: seq<string>)
    requires |ls| == 7
    ensures ParseIdentity(l, ls).Some? ==> var r := ParseIdentity(l, ls).value; IdentityLines(l, r.0, r.1, r.2, r.3) == ls
  {
    hide ParseTime, TimeText, ParseHeight, HeightLine;
  }

  lemma {:induction false} ParsedBalancesPrint(l: Layout, ls: seq<string>)
    requires |ls| == 7
    ensures ParseBalances(l, ls).Some? ==> var r := ParseBalances(l, ls).value; BalanceLines(l, r.0, r.1, r.2) == ls
  {
    hide ParseAmount, AmountLine;
  }

  lemma {:induction false} ParsedExclusionsPrint(l: Layout, ls: seq<string>)
    requires |ls| == 4
    ensures ParseExclusions(l, ls).Some? ==> var r := ParseExclusions(l, ls).value; ExclusionLines(l, r.0, r.1, r.2, r.3) == ls
  {
    hide ParseAmount, AmountLine;
  }

  lemma {:induction false} ParsedFieldsPrint(l: Layout, ls: seq<string>)
    requires |ls| == 18
    ensures ParseFields(l, ls).Some? ==> FieldLines(l, ParseFields(l, ls).value) == ls
  {
    hide ParseIdentity, ParseBalances, ParseExclusions, IdentityLines, BalanceLines, ExclusionLines;
    ParsedIdentityPrints(l, ls[..7]);
    ParsedBalancesPrint(l, ls[7..14]);
    ParsedExclusionsPrint(l, ls[14..]);
    assert ls == ls[..7] + ls[7..14] + ls[14..];
  }

  lemma {:induction false} IdentityParses(l: Layout, nodeId: string, network: string, time: Time, height: U32)
    ensures ParseIdentity(l, IdentityLines(l, nodeId, network, time, height)) == Some((nodeId, network, time, height))
  {
    hide ParseTime, TimeText, ParseHeight, HeightLine;
    ParseTimeText(time);
    ParseHeightOf(l.height, height);
  }

  lemma {:induction false} BalancesParse(l: Layout, confirmed: I64, lightning: I64, total: I64)
    ensures ParseBalances(l, BalanceLines(l, confirmed, lightning, total)) == Some((confirmed, lightning, total))
  {
    hide ParseAmount, AmountLine;
    ParseAmountOf(l.onchain, confirmed, l.onchainNote);
    ParseAmountOf(l.lightning, lightning, l.lightningNote);
    ParseAmountOf(l.total, total, l.msats);
  }

  lemma {:induction false} ExclusionsParse(l: Layout, unconfirmed: I64, reserved: I64, immature: I64, pending: I64)
    ensures ParseExclusions(l, ExclusionLines(l, unconfirmed, reserved, immature, pending))
            == Some((unconfirmed, reserved, immature, pending))
  {
    hide ParseAmount, AmountLine;
    ParseAmountOf(l.unconfirmed, unconfirmed, l.msats);
    ParseAmountOf(l.reserved, reserved, l.msats);
    ParseAmountOf(l.immature, immature, l.msats);
    ParseAmountOf(l.pending, pending, l.msats);
  }

  lemma {:induction false} FieldLinesParse(l: Layout, x: BalanceStatementInputs)
    ensures ParseFields(l, FieldLines(l, x)) == Some(x)
  {
    hide ParseIdentity, ParseBalances, ParseExclusions, IdentityLines, BalanceLines, ExclusionLines;
    var ls := FieldLines(l, x);
    IdentityParses(l, x.nodeId, x.network, x.statementTime, x.blockHeight);
    BalancesParse(l, x.onchainConfirmedMsat, x.lightningOpenMsat, x.TotalMsat());
    ExclusionsParse(l, x.onchainUnconfirmedMsat, x.onchainReservedMsat, x.onchainImmatureMsat, x.lightningPendingMsat);
    assert ls[..7] == IdentityLines(l, x.nodeId, x.network, x.statementTime, x.blockHeight);
    assert ls[7..14] == BalanceLines(l, x.onchainConfirmedMsat, x.lightningOpenMsat, x.TotalMsat());
    assert ls[14..] == ExclusionLines(l, x.onchainUnconfirmedMsat, x.onchainReservedMsat,
                                      x.onchainImmatureMsat, x.lightningPendingMsat);
  }

  lemma {:induction false} AmountLineSingle(caption: string, x: I64, note: string)
    requires FreeOf('\n', caption) && FreeOf('\n', note)
    ensures FreeOf('\n', AmountLine(caption, x, note))
  {
    IntTextChars(x);
  }

  ghost predicate AllSingle(ls: seq<string>) {
    forall i :: 0 <= i < |ls| ==> FreeOf('\n', ls[i])
  }

  lemma {:induction false} IdentitySingle(l: Layout, nodeId: string, network: string, time: Time, height: U32)
    requires l.SingleLine() && FreeOf('\n', nodeId) && FreeOf('\n', network)
    ensures AllSingle(IdentityLines(l, nodeId, network, time, height))
  {
    hide TimeText, IntText;
    TimeTextSingleLine(time);
    FreeOfConcat(l.nodeId, nodeId);
    FreeOfConcat(l.network, network);
    FreeOfConcat(l.time, TimeText(time));
    IntTextChars(height);
    FreeOfConcat(l.height, IntText(height));
  }

  lemma {:induction false} BalancesSingle(l: Layout, confirmed: I64, lightning: I64, total: I64)
    requires l.SingleLine()
    ensures AllSingle(BalanceLines(l, confirmed, lightning, total))
  {
    hide AmountLine;
    AmountLineSingle(l.onchain, confirmed, l.onchainNote);
    AmountLineSingle(l.lightning, lightning, l.lightningNote);
    AmountLineSingle(l.total, total, l.msats);
  }

  lemma {:induction false} ExclusionsSingle(l: Layout, unconfirmed: I64, reserved: I64, immature: I64, pending: I64)
    requires l.SingleLine()
    ensures AllSingle(ExclusionLines(l, unconfirmed, reserved, immature, pending))
  {
    hide AmountLine;
    AmountLineSingle(l.unconfirmed, unconfirmed, l.msats);
    AmountLineSingle(l.reserved, reserved, l.msats);
    AmountLineSingle(l.immature, immature, l.msats);
    AmountLineSingle(l.pending, pending, l.msats);
  }

  lemma {:induction false} FieldLinesSingle(l: Layout, x: BalanceStatementInputs)
    requires l.SingleLine() && x.SingleLine()
    ensures AllSingle(FieldLines(l, x))
  {
    hide IdentityLines, BalanceLines, ExclusionLines;
    IdentitySingle(l, x.nodeId, x.network, x.statementTime, x.blockHeight);
    BalancesSingle(l, x.onchainConfirmedMsat, x.lightningOpenMsat, x.TotalMsat());
    ExclusionsSingle(l, x.onchainUnconfirmedMsat, x.onchainReservedMsat, x.onchainImmatureMsat, x.lightningPendingMsat);
  }

  /** The heading and the 18 field lines, as one text. */
  lemma {:induction false} BlockSplits(l: Layout, serviceName: string, x: BalanceStatementInputs)
    ensures BlockText(l, serviceName, x) == serviceName + l.heading + "\n" + Join(FieldLines(l, x))
  {
    hide FieldLines;
    JoinAppend([serviceName + l.heading], FieldLines(l, x));
  }

  lemma {:induction false} BlockParses(l: Layout, serviceName: string, x: BalanceStatementInputs)
    requires l.SingleLine() && x.SingleLine()
    ensures ParseText(l, BlockText(l, serviceName, x)) == Some((serviceName, x))
  {
    hide FieldLines, ParseFields, BlockText;
    var heading := serviceName + l.heading;
    var fields := FieldLines(l, x);
    FieldLinesSingle(l, x);
    LinesOfJoin(fields);
    BlockSplits(l, serviceName, x);
    LinesAppend(heading, Join(fields));
    var lines := Lines(BlockText(l, serviceName, x));
    var k := |lines| - 18;
    assert lines[..k] == Lines(heading) && lines[k..] == fields;
    JoinOfLines(heading);
    BetweenOf("", serviceName, l.heading);
    assert "" + serviceName + l.heading == heading;
    FieldLinesParse(l, x);
  }

  lemma {:induction false} FreeOfSuffix(a: string, b: string)
    requires FreeOf('\n', a + b)
    ensures FreeOf('\n', b)
  {
    assert forall i :: 0 <= i < |b| ==> b[i] == (a + b)[|a| + i];
  }

  lemma {:induction false} NamesSingle(l: Layout, x: BalanceStatementInputs)
    requires FreeOf('\n', FieldLines(l, x)[2]) && FreeOf('\n', FieldLines(l, x)[3])
    ensures x.SingleLine()
  {
    hide TimeText, IntText, BalanceLines, ExclusionLines, WrapI64;
    FreeOfSuffix(l.nodeId, x.nodeId);
    FreeOfSuffix(l.network, x.network);
  }

  lemma {:induction false} ParsedBlockPrints(l: Layout, text: string)
    ensures ParseText(l, text).Some? ==>
              var (serviceName, x) := ParseText(l, text).value;
              x.SingleLine() && BlockText(l, serviceName, x) == text
  {
    hide FieldLines, ParseFields, BlockText;
    if ParseText(l, text).Some? {
      var lines := Lines(text);
      var k := |lines| - 18;
      var (serviceName, x) := ParseText(l, text).value;
      ParsedFieldsPrint(l, lines[k..]);
      JoinOfLines(text);
      assert lines == lines[..k] + lines[k..];
      JoinAppend(lines[..k], lines[k..]);
      BlockSplits(l, serviceName, x);
      assert lines[k..][2] == lines[k + 2] && lines[k..][3] == lines[k + 3];
      NamesSingle(l, x);
    }
  }

  lemma {:induction false} BulletSingle(caption: string)
    requires FreeOf('\n', caption)
    ensures FreeOf('\n', Bullet(caption))
  {
  }

  lemma {:induction false} IdentityCaptionsSingle()
    ensures FreeOf('\n', "Statement version:    " + IntText(STATEMENT_VERSION))
    ensures FreeOf('\n', "Node ID:              ") && FreeOf('\n', "Network:              ")
    ensures FreeOf('\n', "Statement time:       ") && FreeOf('\n', "Block height:         ")
  {
    hide IntText;
    IntTextChars(STATEMENT_VERSION);
    FreeOfConcat("Statement version:    ", IntText(STATEMENT_VERSION));
  }

  lemma {:induction false} BalanceCaptionsSingle()
    ensures FreeOf('\n', "On-chain balance:     ") && FreeOf('\n', "Lightning balance:    ")
    ensures FreeOf('\n', " msats  (confirmed, spendable by this node)")
    ensures FreeOf('\n', " msats  (this node's side of open channels)")
  {
  }

  lemma {:induction false} TotalCaptionsSingle()
    ensures FreeOf('\n', "Total under control:  ") && FreeOf('\n', " msats")
    ensures FreeOf('\n', "Accounting data:      none") && FreeOf('\n', "Excluded from totals:")
  {
  }

  lemma {:induction false} ExclusionCaptionsSingle()
    ensures FreeOf('\n', Bullet("Unconfirmed on-chain:"))
    ensures FreeOf('\n', Bullet("Reserved on-chain UTXOs:"))
    ensures FreeOf('\n', Bullet("Immature on-chain, e.g. coinbase:"))
    ensures FreeOf('\n', Bullet("Pending channels, opening/closing:"))
  {
    hide Bullet;
    BulletSingle("Unconfirmed on-chain:");
    BulletSingle("Reserved on-chain UTXOs:");
    BulletSingle("Immature on-chain, e.g. coinbase:");
    BulletSingle("Pending channels, opening/closing:");
  }

  lemma {:induction false} StatementLayoutSingle()
    ensures StatementLayout().SingleLine()
  {
    hide FreeOf, Bullet, IntText;
    IdentityCaptionsSingle();
    BalanceCaptionsSingle();
    TotalCaptionsSingle();
    ExclusionCaptionsSingle();
  }

  /** The parser accepts exactly the printed blocks and recovers every input: any service name,
      every 64-bit amount, every height and every time. */
  lemma {:induction false} PrintingIsInvertible(text: string, serviceName: string, x: BalanceStatementInputs)
    ensures ParseMessageBlock(text) == Some((serviceName, x))
            <==> x.SingleLine() && text == BuildMessageBlock(serviceName, x)
  {
    hide StatementLayout, BlockText, ParseText;
    var l := StatementLayout();
    StatementLayoutSingle();
    if x.SingleLine() {
      BlockParses(l, serviceName, x);
    }
    ParsedBlockPrints(l, text);
  }

  // ----- the text, literally

  lemma {:induction false} TimeIsLiteral(t: Time)
    ensures var d := "0123456789";
            TimeText(t) ==
              YearText(t.year)
              + "-" + [d[t.month / 10], d[t.month % 10]] + "-" + [d[t.day / 10], d[t.day % 10]]
              + "T" + [d[t.hour / 10], d[t.hour % 10]] + ":" + [d[t.minute / 10], d[t.minute % 10]]
              + ":" + [d[t.second / 10], d[t.second % 10]] + "Z"
  {
    hide YearText, Padded;
    Decimal.TwoDigits(t.month);
    Decimal.TwoDigits(t.day);
    Decimal.TwoDigits(t.hour);
    Decimal.TwoDigits(t.minute);
    Decimal.TwoDigits(t.second);
  }

  /** Four digits from 0 to 9999, a sign and four digits down to -9999, a sign and all digits beyond. */
  lemma {:induction false} YearIsLiteral(year: int)
    ensures var d := "0123456789";
            && (0 <= year <= 9999 ==>
                  YearText(year) == [d[year / 1000], d[year / 100 % 10], d[year / 10 % 10], d[year % 10]])
            && (-9999 <= year < 0 ==>
                  YearText(year) == ['-', d[-year / 1000], d[-year / 100 % 10], d[-year / 10 % 10], d[-year % 10]])
            && (year > 9999 ==> YearText(year) == "+" + IntText(year))
            && (year < -9999 ==> YearText(year) == IntText(year))
  {
    var n := if year < 0 then -year else year;
    if n > 9999 {
      LongText(n);
    } else {
      FourDigits(n);
    }
  }

  lemma {:induction false} LongText(n: nat)
    requires n > 9999
    ensures |NatText(n)| > 4
  {
    NatTextDigits(n);
    assert Power10(0) == 1;
    assert Power10(1) == 10;
    assert Power10(2) == 100;
    assert Power10(3) == 1000;
    assert Power10(4) == 10000;
  }

  lemma {:induction false} BulletPads(caption: string, spaces: string)
    requires |caption| + |spaces| == 36
    requires forall i :: 0 <= i < |spaces| ==> spaces[i] == ' '
    ensures Bullet(caption) == "  - " + caption + spaces
  {
    assert spaces == seq(36 - |caption|, _ => ' ');
  }

  /** The signed block, line by line, as the statement's readers see it. */
  lemma {:induction false} BlockIsLiteral(serviceName: string, x: BalanceStatementInputs)
    ensures BuildMessageBlock(serviceName, x) ==
            Join([
              serviceName + " node balance statement",
              "",
              "Statement version:    1",
              "Node ID:              " + x.nodeId,
              "Network:              " + x.network,
              "Statement time:       " + TimeText(x.statementTime),
              "Block height:         " + IntText(x.blockHeight),
              "",
              "On-chain balance:     " + IntText(x.onchainConfirmedMsat) + " msats  (confirmed, spendable by this node)",
              "Lightning balance:    " + IntText(x.lightningOpenMsat) + " msats  (this node's side of open channels)",
              "Total under control:  " + IntText(WrapI64(x.onchainConfirmedMsat + x.lightningOpenMsat)) + " msats",
              "",
              "Accounting data:      none",
              "",
              "Excluded from totals:",
              "  - " + "Unconfirmed on-chain:" + "               " + IntText(x.onchainUnconfirmedMsat) + " msats",
              "  - " + "Reserved on-chain UTXOs:" + "            " + IntText(x.onchainReservedMsat) + " msats",
              "  - " + "Immature on-chain, e.g. coinbase:" + "   " + IntText(x.onchainImmatureMsat) + " msats",
              "  - " + "Pending channels, opening/closing:" + "  " + IntText(x.lightningPendingMsat) + " msats"])
  {
    hide IntText, TimeText, Join, Bullet, WrapI64;
    BulletPads("Unconfirmed on-chain:", "               ");
    BulletPads("Reserved on-chain UTXOs:", "            ");
    BulletPads("Immature on-chain, e.g. coinbase:", "   ");
    BulletPads("Pending channels, opening/closing:", "  ");
    VersionIsLiteral();
    LiteralLines(StatementLayout(), serviceName, x);
  }

  lemma {:induction false} VersionIsLiteral()
    ensures "Statement version:    " + IntText(STATEMENT_VERSION) == "Statement version:    1"
  {
    assert IntText(1) == "1";
  }

  lemma {:induction false} LiteralLines(l: Layout, serviceName: string, x: BalanceStatementInputs)
    ensures [serviceName + l.heading] + FieldLines(l, x) ==
            [ serviceName + l.heading, "", l.version, l.nodeId + x.nodeId, l.network + x.network,
              l.time + TimeText(x.statementTime), l.height + IntText(x.blockHeight), "",
              l.onchain + IntText(x.onchainConfirmedMsat) + l.onchainNote,
              l.lightning + IntText(x.lightningOpenMsat) + l.lightningNote,
              l.total + IntText(x.TotalMsat()) + l.msats,
              "", l.accounting, "", l.excluded,
              l.unconfirmed + IntText(x.onchainUnconfirmedMsat) + l.msats,
              l.reserved + IntText(x.onchainReservedMsat) + l.msats,
              l.immature + IntText(x.onchainImmatureMsat) + l.msats,
              l.pending + IntText(x.lightningPendingMsat) + l.msats ]
  {
    hide IntText, TimeText, WrapI64;
  }

  /** Two inputs with the same signed text are the same inputs. */
  lemma {:induction false} BlocksDetermineInputs(s1: string, x1: BalanceStatementInputs, s2: string, x2: BalanceStatementInputs)
    requires x1.SingleLine() && x2.SingleLine()
    ensures BuildMessageBlock(s1, x1) == BuildMessageBlock(s2, x2) <==> s1 == s2 && x1 == x2
  {
    hide BuildMessageBlock, ParseMessageBlock;
    PrintingIsInvertible(BuildMessageBlock(s1, x1), s1, x1);
    PrintingIsInvertible(BuildMessageBlock(s2, x2), s2, x2);
  }
}
