/** The journal: one printed line per entry, and the replay that reads the lines back. */
module Journal {
  import opened Text

  datatype JournalEntry =
    | Tick(symbol: string, timestampNs: nat, data: string)
    | Intent(symbol: string, timestampNs: nat, data: string)
    | Fill(symbol: string, timestampNs: nat, data: string)
    | Order(symbol: string, timestampNs: nat, data: string)
    | Snapshot(timestampNs: nat, data: string)
    | Event(eventType: string, timestampNs: nat, data: string)
  {
    /** The second field of the line: a symbol or an event type. */
    function Subject(): string {
      match this
      case Event(eventType, _, _) => eventType
      case Snapshot(_, _) => ""
      case _ => symbol
    }
  }

  datatype ParseResult = Parsed(entry: JournalEntry) | Malformed(reason: string)

  /** Two fields, or a field and the rest of the line, with the separator between them. */
  function Bar(field: string, rest: string): string {
    field + ['|'] + rest
  }

  function FormatEntry(entry: JournalEntry): string {
    match entry
    case Tick(symbol, ts, data) => Bar("TICK", Bar(symbol, Bar(Decimal(ts), data)))
    case Intent(symbol, ts, data) => Bar("INTENT", Bar(symbol, Bar(Decimal(ts), data)))
    case Fill(symbol, ts, data) => Bar("FILL", Bar(symbol, Bar(Decimal(ts), data)))
    case Order(symbol, ts, data) => Bar("ORDER", Bar(symbol, Bar(Decimal(ts), data)))
    case Snapshot(ts, data) => Bar("SNAPSHOT", Bar(Decimal(ts), data))
    case Event(eventType, ts, data) => Bar("EVENT", Bar(eventType, Bar(Decimal(ts), data)))
  }

  function ParseEntryLine(line: string): ParseResult {
    var parts := SplitN(line, '|', 4);
    if |parts| < 3 then Malformed("Invalid journal line format")
    else
      match ParseU64(parts[2])
      case None => Malformed("Bad timestamp")
      case Some(ts) =>
        if parts[0] == "TICK" then
          if |parts| != 4 then Malformed("Invalid TICK entry") else Parsed(Tick(parts[1], ts, parts[3]))
        else if parts[0] == "INTENT" then
          if |parts| != 4 then Malformed("Invalid INTENT entry") else Parsed(Intent(parts[1], ts, parts[3]))
        else if parts[0] == "FILL" then
          if |parts| != 4 then Malformed("Invalid FILL entry") else Parsed(Fill(parts[1], ts, parts[3]))
        else if parts[0] == "ORDER" then
          if |parts| != 4 then Malformed("Invalid ORDER entry") else Parsed(Order(parts[1], ts, parts[3]))
        else if parts[0] == "SNAPSHOT" then
          if |parts| == 3 then Parsed(Snapshot(ts, parts[2])) else Malformed("Invalid SNAPSHOT entry")
        else if parts[0] == "EVENT" then
          if |parts| != 4 then Malformed("Invalid EVENT entry") else Parsed(Event(parts[1], ts, parts[3]))
        else Malformed("Unknown journal entry type")
  }

  /** What replay hands to its handler for a file with these lines: blank and malformed lines are passed over. */
  ghost function Entries(lines: seq<string>): seq<JournalEntry> {
    if lines == [] then []
    else
      var line := lines[0];
      var rest := Entries(lines[1..]);
      if Trim(line) != "" && ParseEntryLine(line).Parsed? then [ParseEntryLine(line).entry] + rest else rest
  }

  lemma EntriesAppend(lines: seq<string>, line: string)
    ensures Entries(lines + [line]) ==
            Entries(lines) +
            if Trim(line) != "" && ParseEntryLine(line).Parsed? then [ParseEntryLine(line).entry] else []
  {
    if lines != [] {
      EntriesAppend(lines[1..], line);
      assert (lines + [line])[1..] == lines[1..] + [line];
    } else {
      assert [line][1..] == [];
    }
  }

  /** Replay of one file. */
  method Replay(content: string) returns (handled: seq<JournalEntry>, entriesRead: nat)
    ensures handled == Entries(Lines(content)) && entriesRead == |handled|
  {
    hide Lines, Trim, ParseEntryLine;
    handled, entriesRead := [], 0;
    var lines := Lines(content);
    for i := 0 to |lines|
      invariant handled == Entries(lines[..i]) && entriesRead == |handled|
    {
      EntriesAppend(lines[..i], lines[i]);
      assert lines[..i + 1] == lines[..i] + [lines[i]];
      if Trim(lines[i]) == "" {
        continue;
      }
      var parsed := ParseEntryLine(lines[i]);
      if parsed.Parsed? {
        handled := handled + [parsed.entry];
        entriesRead := entriesRead + 1;
      }
    }
    assert lines[..|lines|] == lines;
  }

  // ---------- one line ----------

  lemma DecimalHasNo(n: nat, c: char)
    requires !IsDigit(c)
    ensures c !in Decimal(n)
  {
    DecimalReadsBack(n);
  }

  lemma FourFields(tag: string, subject: string, ts: nat, data: string)
    requires '|' !in tag
    ensures var parts := SplitN(Bar(tag, Bar(subject, Bar(Decimal(ts), data))), '|', 4);
            if '|' in subject then parts[0] == tag && |parts| >= 2 && '|' !in parts[1]
            else parts == [tag, subject, Decimal(ts), data]
  {
    hide SplitN, Decimal;
    var rest := Bar(subject, Bar(Decimal(ts), data));
    SplitNField(tag, '|', rest, 4);
    SplitNCuts(rest, '|', 3);
    if '|' in subject {
      assert rest[..|subject|] == subject;
    } else {
      DecimalHasNo(ts, '|');
      SplitNField(subject, '|', Bar(Decimal(ts), data), 3);
      SplitNField(Decimal(ts), '|', data, 2);
      SplitNCuts(data, '|', 1);
    }
  }

  /** A printed entry reads back exactly when its symbol or type holds no separator; separators in data do no harm. */
  lemma LineReadsBack(entry: JournalEntry)
    requires !entry.Snapshot? && entry.timestampNs < U64_LIMIT
    ensures ParseEntryLine(FormatEntry(entry)) == Parsed(entry) <==> '|' !in entry.Subject()
  {
    hide SplitN, Bar, Decimal, ParseU64;
    DecimalReadsBack(entry.timestampNs);
    match entry {
      case Tick(symbol, ts, data) => FourFields("TICK", symbol, ts, data);
      case Intent(symbol, ts, data) => FourFields("INTENT", symbol, ts, data);
      case Fill(symbol, ts, data) => FourFields("FILL", symbol, ts, data);
      case Order(symbol, ts, data) => FourFields("ORDER", symbol, ts, data);
      case Event(eventType, ts, data) => FourFields("EVENT", eventType, ts, data);
    }
  }

  /**
   A snapshot prints one field fewer than the others, and the parser reads its data as the
   timestamp: it reads back only when the data is itself a numeral of the timestamp.
   */
  lemma SnapshotReadsBackOnlyAsNumeral(timestampNs: nat, data: string)
    ensures var s := Snapshot(timestampNs, data);
            ParseEntryLine(FormatEntry(s)) == Parsed(s) <==> '|' !in data && ParseU64(data) == Some(timestampNs)
  {
    hide SplitN, FormatEntry, Decimal, ParseU64;
    var line := FormatEntry(Snapshot(timestampNs, data));
    var parts := SplitN(line, '|', 4);
    assert parts == ["SNAPSHOT", Decimal(timestampNs)] + SplitN(data, '|', 2) by {
      SnapshotFields(timestampNs, data);
    }
    SplitNCuts(data, '|', 2);
  }

  lemma SnapshotFields(timestampNs: nat, data: string)
    ensures SplitN(FormatEntry(Snapshot(timestampNs, data)), '|', 4) ==
            ["SNAPSHOT", Decimal(timestampNs)] + SplitN(data, '|', 2)
  {
    hide SplitN, Decimal;
    DecimalHasNo(timestampNs, '|');
    SplitNField("SNAPSHOT", '|', Bar(Decimal(timestampNs), data), 4);
    SplitNField(Decimal(timestampNs), '|', data, 3);
  }

  // ---------- any line ----------

  /** The tag a kind of entry is printed under. */
  function Tag(entry: JournalEntry): string {
    match entry
    case Tick(_, _, _) => "TICK"
    case Intent(_, _, _) => "INTENT"
    case Fill(_, _, _) => "FILL"
    case Order(_, _, _) => "ORDER"
    case Snapshot(_, _) => "SNAPSHOT"
    case Event(_, _, _) => "EVENT"
  }

  lemma ThreeFields(a: string, b: string, c: string)
    requires '|' !in a && '|' !in b && '|' !in c
    ensures SplitN(a + "|" + b + "|" + c, '|', 4) == [a, b, c]
  {
    hide SplitN;
    assert a + "|" + b + "|" + c == a + ['|'] + (b + ['|'] + c);
    SplitNField(a, '|', b + ['|'] + c, 4);
    SplitNField(b, '|', c, 3);
    SplitNCuts(c, '|', 2);
  }

  lemma FourFieldsOf(a: string, b: string, c: string, d: string)
    requires '|' !in a && '|' !in b && '|' !in c
    ensures SplitN(a + "|" + b + "|" + c + "|" + d, '|', 4) == [a, b, c, d]
  {
    hide SplitN;
    assert a + "|" + b + "|" + c + "|" + d == a + ['|'] + (b + ['|'] + (c + ['|'] + d));
    SplitNField(a, '|', b + ['|'] + (c + ['|'] + d), 4);
    SplitNField(b, '|', c + ['|'] + d, 3);
    SplitNField(c, '|', d, 2);
    SplitNCuts(d, '|', 1);
  }

  lemma BarsAssociate(a: string, b: string, c: string, d: string)
    ensures a + ['|'] + (b + ['|'] + c) == a + "|" + b + "|" + c
    ensures a + ['|'] + (b + ['|'] + (c + ['|'] + d)) == a + "|" + b + "|" + c + "|" + d
  {
    assert a + ['|'] + (b + ['|'] + (c + ['|'] + d)) == a + "|" + b + "|" + c + "|" + d;
  }

  /** The fields of a split, put together again. */
  lemma FieldsJoin(line: string)
    ensures var f := SplitN(line, '|', 4);
            && (|f| == 3 ==> line == f[0] + "|" + f[1] + "|" + f[2] && '|' !in f[0] && '|' !in f[1] && '|' !in f[2])
            && (|f| == 4 ==> line == f[0] + "|" + f[1] + "|" + f[2] + "|" + f[3]
                             && '|' !in f[0] && '|' !in f[1] && '|' !in f[2])
  {
    hide SplitN, Joined;
    SplitNJoins(line, '|', 4);
    var f := SplitN(line, '|', 4);
    if |f| == 3 {
      JoinedThree(f[0], f[1], f[2], '|');
      BarsAssociate(f[0], f[1], f[2], "");
      assert f == [f[0], f[1], f[2]];
    } else if |f| == 4 {
      JoinedFour(f[0], f[1], f[2], f[3], '|');
      BarsAssociate(f[0], f[1], f[2], f[3]);
      assert f == [f[0], f[1], f[2], f[3]];
    }
  }

  /** A line is read as an entry exactly if its fields are the entry's. */
  lemma FieldsThatParse(line: string, entry: JournalEntry)
    ensures var f := SplitN(line, '|', 4);
            ParseEntryLine(line) == Parsed(entry) <==>
            if entry.Snapshot? then
              |f| == 3 && f[0] == "SNAPSHOT" && f[2] == entry.data && ParseU64(f[2]) == Some(entry.timestampNs)
            else
              && |f| == 4 && f[0] == Tag(entry) && f[1] == entry.Subject() && f[3] == entry.data
              && ParseU64(f[2]) == Some(entry.timestampNs)
  {
    hide SplitN, ParseU64;
  }

  /** What is wrong with the lines that are not read. */
  lemma MalformedLines(line: string)
    ensures var f, r := SplitN(line, '|', 4), ParseEntryLine(line);
            if |f| < 3 then r == Malformed("Invalid journal line format")
            else if ParseU64(f[2]) == None then r == Malformed("Bad timestamp")
            else if f[0] in {"TICK", "INTENT", "FILL", "ORDER", "EVENT"} then
              |f| == 3 ==> r == Malformed("Invalid " + f[0] + " entry")
            else if f[0] == "SNAPSHOT" then |f| == 4 ==> r == Malformed("Invalid SNAPSHOT entry")
            else r == Malformed("Unknown journal entry type")
  {
    hide SplitN, ParseU64;
    assert "Invalid " + "TICK" + " entry" == "Invalid TICK entry";
    assert "Invalid " + "INTENT" + " entry" == "Invalid INTENT entry";
    assert "Invalid " + "FILL" + " entry" == "Invalid FILL entry";
    assert "Invalid " + "ORDER" + " entry" == "Invalid ORDER entry";
    assert "Invalid " + "EVENT" + " entry" == "Invalid EVENT entry";
  }

  /**
   A line is read as an entry exactly if it is tag, subject, a numeral of the timestamp and data between separators,
   with none in the first three; for a snapshot, if it is the tag, anything, and data that is itself such a numeral.
   */
  lemma LinesThatParse(line: string, entry: JournalEntry)
    ensures ParseEntryLine(line) == Parsed(entry) <==>
            if entry.Snapshot? then
              && '|' !in entry.data && ParseU64(entry.data) == Some(entry.timestampNs)
              && exists field :: '|' !in field && line == "SNAPSHOT" + "|" + field + "|" + entry.data
            else
              && '|' !in entry.Subject()
              && exists number :: '|' !in number && ParseU64(number) == Some(entry.timestampNs)
                                  && line == Tag(entry) + "|" + entry.Subject() + "|" + number + "|" + entry.data
  {
    hide SplitN, ParseU64, ParseEntryLine;
    FieldsJoin(line);
    FieldsThatParse(line, entry);
    if entry.Snapshot? {
      if field :| '|' !in field && line == "SNAPSHOT" + "|" + field + "|" + entry.data
                  && '|' !in entry.data && ParseU64(entry.data) == Some(entry.timestampNs) {
        ThreeFields("SNAPSHOT", field, entry.data);
      }
    } else {
      if number :| '|' !in number && ParseU64(number) == Some(entry.timestampNs) && '|' !in entry.Subject()
                   && line == Tag(entry) + "|" + entry.Subject() + "|" + number + "|" + entry.data {
        FourFieldsOf(Tag(entry), entry.Subject(), number, entry.data);
      }
    }
  }

  // ---------- whole files ----------

  /** The conditions under which an entry survives the journal. */
  ghost predicate Clean(entry: JournalEntry) {
    && (if entry.Snapshot? then '|' !in entry.data && ParseU64(entry.data) == Some(entry.timestampNs)
        else '|' !in entry.Subject())
    && '\n' !in entry.Subject() && OneLine(entry.data)
  }

  ghost function Written(entries: seq<JournalEntry>): string {
    if entries == [] then "" else FormatEntry(entries[0]) + "\n" + Written(entries[1..])
  }

  lemma {:induction false} FirstStays(s: string)
    requires s != "" && !IsWhite(s[0])
    ensures Trim(s) != "" && TrimEnd(s) != ""
  {
    if IsWhite(s[|s| - 1]) {
      FirstStays(s[..|s| - 1]);
    }
  }

  lemma NotBlank(entry: JournalEntry)
    ensures Trim(FormatEntry(entry)) != ""
  {
    var line := FormatEntry(entry);
    match entry
    case Tick(_, _, _) => assert line[0] == "TICK"[0] == 'T'; FirstStays(line);
    case Intent(_, _, _) => assert line[0] == "INTENT"[0] == 'I'; FirstStays(line);
    case Fill(_, _, _) => assert line[0] == "FILL"[0] == 'F'; FirstStays(line);
    case Order(_, _, _) => assert line[0] == "ORDER"[0] == 'O'; FirstStays(line);
    case Snapshot(_, _) => assert line[0] == "SNAPSHOT"[0] == 'S'; FirstStays(line);
    case Event(_, _, _) => assert line[0] == "EVENT"[0] == 'E'; FirstStays(line);
  }

  /** Text that `Lines` leaves alone. */
  predicate OneLine(s: string) {
    '\n' !in s && (s != "" ==> s[|s| - 1] != '\r')
  }

  lemma BarIsOneLine(field: string, rest: string)
    requires '\n' !in field && OneLine(rest)
    ensures OneLine(Bar(field, rest))
  {
  }

  lemma PrintsNoNewline(entry: JournalEntry)
    requires '\n' !in entry.Subject() && '\n' !in entry.data
    ensures '\n' !in FormatEntry(entry)
  {
    var marked := entry.(data := entry.data + "x");
    PrintsOneLine(marked);
    DataEndsTheLine(entry, "x");
  }

  /** The data is the end of the line: text added to the data is added to the line. */
  lemma DataEndsTheLine(entry: JournalEntry, more: string)
    ensures FormatEntry(entry.(data := entry.data + more)) == FormatEntry(entry) + more
  {
    hide Bar;
    var number, subject := Decimal(entry.timestampNs), entry.Subject();
    BarExtends(number, entry.data, more);
    BarExtends(subject, Bar(number, entry.data), more);
    match entry
    case Tick(_, _, _) => BarExtends("TICK", Bar(subject, Bar(number, entry.data)), more);
    case Intent(_, _, _) => BarExtends("INTENT", Bar(subject, Bar(number, entry.data)), more);
    case Fill(_, _, _) => BarExtends("FILL", Bar(subject, Bar(number, entry.data)), more);
    case Order(_, _, _) => BarExtends("ORDER", Bar(subject, Bar(number, entry.data)), more);
    case Snapshot(_, _) => BarExtends("SNAPSHOT", Bar(number, entry.data), more);
    case Event(_, _, _) => BarExtends("EVENT", Bar(subject, Bar(number, entry.data)), more);
  }

  lemma BarExtends(field: string, rest: string, more: string)
    ensures Bar(field, rest + more) == Bar(field, rest) + more
  {
    assert Bar(field, rest + more) == Bar(field, rest) + more;
  }

  lemma PrintsOneLine(entry: JournalEntry)
    requires '\n' !in entry.Subject() && OneLine(entry.data)
    ensures OneLine(FormatEntry(entry))
  {
    hide Bar, OneLine;
    var inner := Bar(Decimal(entry.timestampNs), entry.data);
    DecimalHasNo(entry.timestampNs, '\n');
    BarIsOneLine(Decimal(entry.timestampNs), entry.data);
    BarIsOneLine(entry.Subject(), inner);
    match entry
    case Tick(symbol, _, _) => BarIsOneLine("TICK", Bar(symbol, inner));
    case Intent(symbol, _, _) => BarIsOneLine("INTENT", Bar(symbol, inner));
    case Fill(symbol, _, _) => BarIsOneLine("FILL", Bar(symbol, inner));
    case Order(symbol, _, _) => BarIsOneLine("ORDER", Bar(symbol, inner));
    case Snapshot(_, _) => BarIsOneLine("SNAPSHOT", inner);
    case Event(eventType, _, _) => BarIsOneLine("EVENT", Bar(eventType, inner));
  }

  lemma CleanLine(entry: JournalEntry)
    requires Clean(entry) && entry.timestampNs < U64_LIMIT
    ensures OneLine(FormatEntry(entry)) && ParseEntryLine(FormatEntry(entry)) == Parsed(entry)
  {
    hide FormatEntry, ParseEntryLine, ParseU64;
    PrintsOneLine(entry);
    if entry.Snapshot? {
      SnapshotReadsBackOnlyAsNumeral(entry.timestampNs, entry.data);
    } else {
      LineReadsBack(entry);
    }
  }

  /** Replaying what was written yields the same entries in the same order. */
  lemma {:induction false} ReplayRoundTrip(entries: seq<JournalEntry>)
    requires forall i :: 0 <= i < |entries| ==> Clean(entries[i]) && entries[i].timestampNs < U64_LIMIT
    ensures Entries(Lines(Written(entries))) == entries
  {
    if entries != [] {
      var line := FormatEntry(entries[0]);
      CleanLine(entries[0]);
      NotBlank(entries[0]);
      FirstLine(line, Written(entries[1..]));
      ReplayRoundTrip(entries[1..]);
      assert ([line] + Lines(Written(entries[1..])))[1..] == Lines(Written(entries[1..]));
    }
  }

  lemma {:induction false} EntryComesFromALine(lines: seq<string>, entry: JournalEntry) returns (line: string)
    requires entry in Entries(lines)
    ensures line in lines && ParseEntryLine(line) == Parsed(entry)
  {
    if Trim(lines[0]) != "" && ParseEntryLine(lines[0]) == Parsed(entry) {
      line := lines[0];
    } else {
      line := EntryComesFromALine(lines[1..], entry);
    }
  }

  lemma ReadEntriesHaveNoNewline(text: string, entry: JournalEntry)
    requires entry in Entries(Lines(text))
    ensures '\n' !in entry.Subject() && '\n' !in entry.data
  {
    hide ParseEntryLine;
    var line := EntryComesFromALine(Lines(text), entry);
    LinesHaveNoNewline(text);
    ParsedFieldsHaveNo(line, '\n');
  }

  lemma ParsedFieldsHaveNo(line: string, c: char)
    requires c !in line && ParseEntryLine(line).Parsed?
    ensures c !in ParseEntryLine(line).entry.Subject() && c !in ParseEntryLine(line).entry.data
  {
    hide SplitN, ParseU64;
    SplitNCharacters(line, '|', 4, c);
  }

  /** A printed line that reads back under the same symbol reads back with the same data. */
  lemma {:induction false} SameSubjectSameData(entry: JournalEntry, other: JournalEntry)
    requires entry.timestampNs < U64_LIMIT
    ensures other.Subject() == entry.Subject() && ParseEntryLine(FormatEntry(entry)) == Parsed(other) ==>
              other.data == entry.data
  {
    hide SplitN, Bar, Decimal, ParseU64;
    match entry {
      case Tick(symbol, ts, data) => FourFields("TICK", symbol, ts, data);
      case Intent(symbol, ts, data) => FourFields("INTENT", symbol, ts, data);
      case Fill(symbol, ts, data) => FourFields("FILL", symbol, ts, data);
      case Order(symbol, ts, data) => FourFields("ORDER", symbol, ts, data);
      case Event(eventType, ts, data) => FourFields("EVENT", eventType, ts, data);
      case Snapshot(ts, data) =>
        SnapshotFields(ts, data);
        SplitNCuts(data, '|', 2);
    }
  }

  /** An entry whose data ends in a carriage return comes back without it, or not at all. */
  lemma LosesCarriageReturn(entry: JournalEntry)
    requires entry.timestampNs < U64_LIMIT && entry.data != "" && entry.data[|entry.data| - 1] == '\r'
    ensures ParseEntryLine(StripCarriageReturn(FormatEntry(entry))) != Parsed(entry)
  {
    hide FormatEntry, ParseEntryLine;
    var cut := entry.(data := entry.data[..|entry.data| - 1]);
    assert entry.data == cut.data + "\r" && entry == cut.(data := cut.data + "\r");
    DataEndsTheLine(cut, "\r");
    assert StripCarriageReturn(FormatEntry(cut) + "\r") == FormatEntry(cut);
    SameSubjectSameData(cut, entry);
  }

  /** An entry alone in a file reads back exactly when it is clean. */
  lemma FileReadsBack(entry: JournalEntry)
    requires entry.timestampNs < U64_LIMIT
    ensures Entries(Lines(Written([entry]))) == [entry] <==> Clean(entry)
  {
    hide FormatEntry, ParseEntryLine, ParseU64;
    var line := FormatEntry(entry);
    if Clean(entry) {
      ReplayRoundTrip([entry]);
    }
    if Entries(Lines(Written([entry]))) == [entry] {
      assert Written([entry]) == line + "\n" + "";
      assert entry in Entries(Lines(Written([entry])));
      ReadEntriesHaveNoNewline(Written([entry]), entry);
      PrintsNoNewline(entry);
      FirstLine(line, "");
      var read := EntryComesFromALine(Lines(Written([entry])), entry);
      assert read == StripCarriageReturn(line);
      if entry.data != "" && entry.data[|entry.data| - 1] == '\r' {
        LosesCarriageReturn(entry);
      } else {
        PrintsOneLine(entry);
        if entry.Snapshot? {
          SnapshotReadsBackOnlyAsNumeral(entry.timestampNs, entry.data);
        } else {
          LineReadsBack(entry);
        }
      }
    }
  }
}
