/** The text file of known Wake-on-LAN targets in `network/src/lib.rs`. */
module WolStore {
  import opened Ascii
  import opened MacAddress
  import opened Wrappers

  datatype WolEntry = WolEntry(mac: string, name: string)

  datatype WolError = InvalidMac | CommandFailed | Io

  /** How the disk answers: a failed write may leave anything behind. */
  datatype Disk = Disk(readable: bool, writable: bool, torn: string)

  // ---- text to entries ----

  /** The first c in s, or the end. */
  function IndexOf(s: string, c: char): (i: nat)
    ensures i <= |s| && c !in s[..i]
    ensures i < |s| ==> s[i] == c
  {
    if s == [] || s[0] == c then 0
    else
      var i := IndexOf(s[1..], c);
      assert s[..i + 1] == [s[0]] + s[1..][..i];
      i + 1
  }

  function StripCr(line: string): string {
    if line != [] && line[|line| - 1] == '\r' then line[..|line| - 1] else line
  }

  /** `str::lines`: a last line without a newline keeps its carriage return. */
  function Lines(s: string): seq<string>
    decreases |s|
  {
    if s == [] then []
    else
      var i := IndexOf(s, '\n');
      if i == |s| then [s] else [StripCr(s[..i])] + Lines(s[i + 1..])
  }

  /** The entry of a line: the address up to the first space, then the name. */
  function EntryOf(line: string): seq<WolEntry> {
    var i := IndexOf(line, ' ');
    if i == 0 then [] else [WolEntry(line[..i], if i < |line| then line[i + 1..] else "")]
  }

  function EntriesOf(lines: seq<string>, n: nat): seq<WolEntry>
    requires n <= |lines|
  {
    if n == 0 then [] else EntriesOf(lines, n - 1) + EntryOf(lines[n - 1])
  }

  function Parse(content: string): seq<WolEntry> { EntriesOf(Lines(content), |Lines(content)|) }

  // ---- entries to text ----

  function Text(e: WolEntry): string { if e.name == "" then e.mac else e.mac + " " + e.name }

  function Line(e: WolEntry): string { Text(e) + "\n" }

  function PrintTo(entries: seq<WolEntry>, n: nat): string
    requires n <= |entries|
  {
    if n == 0 then "" else PrintTo(entries, n - 1) + Line(entries[n - 1])
  }

  function Print(entries: seq<WolEntry>): string { PrintTo(entries, |entries|) }

  // ---- the operations on the list ----

  function Find(entries: seq<WolEntry>, mac: string): (i: nat)
    ensures i <= |entries|
    ensures i < |entries| ==> entries[i].mac == mac
    ensures forall j :: 0 <= j < i ==> entries[j].mac != mac
  {
    if entries == [] || entries[0].mac == mac then 0 else 1 + Find(entries[1..], mac)
  }

  predicate Has(entries: seq<WolEntry>, mac: string) { Find(entries, mac) < |entries| }

  /** The first entry for mac gets the name. */
  function Renamed(entries: seq<WolEntry>, mac: string, name: string): seq<WolEntry> {
    var i := Find(entries, mac);
    if i < |entries| then entries[i := WolEntry(mac, name)] else entries
  }

  function Except(entries: seq<WolEntry>, macs: set<string>): seq<WolEntry> {
    if entries == [] then []
    else Except(entries[..|entries| - 1], macs) + if entries[|entries| - 1].mac in macs then [] else [entries[|entries| - 1]]
  }

  predicate Named(c: char) { 'a' <= c <= 'z' || 'A' <= c <= 'Z' || '0' <= c <= '9' || c == '_' || c == '-' || c == '.' }

  function Sanitized(name: string): string {
    if name == [] then [] else (if Named(name[0]) then [name[0]] else []) + Sanitized(name[1..])
  }

  // ---- one operation, on the list and on the file ----

  /** What a successful wake leaves in the file. */
  function Saved(content: string, address: string): string {
    if Has(Parse(content), address) then content else content + Line(WolEntry(address, ""))
  }

  datatype Op = Wake(mac: string) | Rename(mac: string, name: string) | Delete(mac: string)

  /** A successful operation on the list. */
  function Applied(entries: seq<WolEntry>, op: Op): seq<WolEntry> {
    match op
    case Wake(mac) =>
      (match Parsed(mac)
       case None => entries
       case Some(address) => if Has(entries, address) then entries else entries + [WolEntry(address, "")])
    case Rename(mac, name) => Renamed(entries, mac, name)
    case Delete(mac) => Except(entries, {mac})
  }

  /** The same operation on the file. */
  function Stored(content: string, op: Op): string {
    match op
    case Wake(mac) => (match Parsed(mac) case None => content case Some(address) => Saved(content, address))
    case Rename(mac, name) => if Has(Parse(content), mac) then Print(Renamed(Parse(content), mac, name)) else content
    case Delete(mac) => if Has(Parse(content), mac) then Print(Except(Parse(content), {mac})) else content
  }

  // ---- the store ----

  class WolStore {
    var file: Option<string>

    constructor ()
      ensures file == None && Content() == ""
    {
      file := None;
    }

    /** An absent file reads as no entries. */
    ghost function Content(): string
      reads this
    {
      if file.Some? then file.value else ""
    }

    /** An absent file is not read. */
    ghost predicate Readable(disk: Disk)
      reads this
    {
      file.None? || disk.readable
    }

    method GetWolMacs(disk: Disk) returns (r: Result<seq<WolEntry>, WolError>)
      ensures r == if Readable(disk) then Ok(Parse(Content())) else Err(Io)
    {
      if file.None? {
        return Ok([]);
      }
      if !disk.readable {
        return Err(Io);
      }
      var lines := Lines(file.value);
      var entries := [];
      for k := 0 to |lines|
        invariant entries == EntriesOf(lines, k)
      {
        var i := IndexOf(lines[k], ' ');
        if i != 0 {
          entries := entries + [WolEntry(lines[k][..i], if i < |lines[k]| then lines[k][i + 1..] else "")];
        }
      }
      return Ok(entries);
    }

    method SaveAllMacs(entries: seq<WolEntry>, disk: Disk) returns (r: Result<(), WolError>)
      modifies this
      ensures r == if disk.writable then Ok(()) else Err(Io)
      ensures file == Some(if disk.writable then Print(entries) else disk.torn)
    {
      var content := "";
      for k := 0 to |entries|
        invariant content == PrintTo(entries, k)
      {
        if entries[k].name == "" {
          content := content + (entries[k].mac + "\n");
        } else {
          content := content + (entries[k].mac + " " + entries[k].name + "\n");
        }
      }
      r := Put(content, disk);
    }

    method Put(content: string, disk: Disk) returns (r: Result<(), WolError>)
      modifies this
      ensures r == if disk.writable then Ok(()) else Err(Io)
      ensures file == Some(if disk.writable then content else disk.torn)
    {
      if !disk.writable {
        file := Some(disk.torn);
        return Err(Io);
      }
      file := Some(content);
      return Ok(());
    }

    method SaveMac(mac: string, name: string, disk: Disk) returns (r: Result<(), WolError>)
      modifies this
      ensures if !old(Readable(disk)) then r == Err(Io) && file == old(file)
              else if Has(Parse(old(Content())), mac) then r == Ok(()) && file == old(file)
              else if disk.writable then r == Ok(()) && file == Some(old(Content()) + Line(WolEntry(mac, Sanitized(name))))
              else r == Err(Io) && file == Some(disk.torn)
    {
      var got := GetWolMacs(disk);
      if got.Err? {
        return Err(got.error);
      }
      var entries := got.value;
      hide Parse;
      for k := 0 to |entries|
        invariant forall j :: 0 <= j < k ==> entries[j].mac != mac
      {
        if entries[k].mac == mac {
          return Ok(());
        }
      }
      var sanitizedName := Sanitized(name);
      var line := if sanitizedName == "" then mac + "\n" else mac + " " + sanitizedName + "\n";
      r := Put((if file.Some? then file.value else "") + line, disk);
    }

    /** `sent`: did the wake command succeed. A failed save is not reported. */
    method WakeOnLan(mac: string, sent: bool, disk: Disk) returns (r: Result<string, WolError>)
      modifies this
      ensures r == match Parsed(mac)
                   case None => Err(InvalidMac)
                   case Some(address) => if sent then Ok(address) else Err(CommandFailed)
      ensures Content() == if r.Err? || !old(Readable(disk)) then old(Content())
                           else if disk.writable || Has(Parse(old(Content())), r.value) then Stored(old(Content()), Wake(mac))
                           else disk.torn
    {
      var address := ParseMac(mac);
      if address.None? {
        return Err(InvalidMac);
      }
      if !sent {
        return Err(CommandFailed);
      }
      hide Parse, Parsed;
      var _ := SaveMac(address.value, "", disk);
      return Ok(address.value);
    }

    method SetWolMacName(mac: string, name: string, disk: Disk) returns (r: Result<(), WolError>)
      modifies this
      ensures r == if !old(Readable(disk)) then Err(Io)
                   else if !Has(Parse(old(Content())), mac) then Err(InvalidMac)
                   else if disk.writable then Ok(()) else Err(Io)
      ensures Content() == if !old(Readable(disk)) || !Has(Parse(old(Content())), mac) then old(Content())
                           else if disk.writable then Stored(old(Content()), Rename(mac, name)) else disk.torn
    {
      var got := GetWolMacs(disk);
      if got.Err? {
        return Err(got.error);
      }
      hide Parse, Print, Renamed, Has;
      var found, entries := NameFirst(got.value, mac, name);
      if !found {
        return Err(InvalidMac);
      }
      r := SaveAllMacs(entries, disk);
    }

    method DeleteWolMac(mac: string, disk: Disk) returns (r: Result<(), WolError>)
      modifies this
      ensures r == if old(Readable(disk)) && (disk.writable || !Has(Parse(old(Content())), mac)) then Ok(()) else Err(Io)
      ensures Content() == if !old(Readable(disk)) || !Has(Parse(old(Content())), mac) then old(Content())
                           else if disk.writable then Stored(old(Content()), Delete(mac)) else disk.torn
    {
      var got := GetWolMacs(disk);
      if got.Err? {
        return Err(got.error);
      }
      hide Parse, Print, Except, Has;
      var kept := Retain(got.value, mac);
      ExceptShrinks(got.value, mac);
      if |kept| != |got.value| {
        r := SaveAllMacs(kept, disk);
      } else {
        r := Ok(());
      }
    }
  }

  /** The loop of `set_wol_mac_name`. */
  method NameFirst(was: seq<WolEntry>, mac: string, name: string) returns (found: bool, entries: seq<WolEntry>)
    ensures found == Has(was, mac) && entries == Renamed(was, mac, name)
  {
    entries := was;
    found := false;
    for k := 0 to |entries|
      invariant entries == was && !found
      invariant forall j :: 0 <= j < k ==> was[j].mac != mac
    {
      if entries[k].mac == mac {
        entries := entries[k := entries[k].(name := name)];
        found := true;
        break;
      }
    }
  }

  /** `entries.retain(|e| e.mac != mac)` */
  method Retain(entries: seq<WolEntry>, mac: string) returns (kept: seq<WolEntry>)
    ensures kept == Except(entries, {mac})
  {
    kept := [];
    for k := 0 to |entries|
      invariant kept == Except(entries[..k], {mac})
    {
      assert entries[..k + 1][..k] == entries[..k];
      if entries[k].mac != mac {
        kept := kept + [entries[k]];
      }
    }
    assert entries[..|entries|] == entries;
  }

  lemma {:induction false} ExceptShrinks(entries: seq<WolEntry>, mac: string)
    ensures |Except(entries, {mac})| <= |entries|
    ensures |Except(entries, {mac})| == |entries| <==> !Has(entries, mac)
  {
    if entries == [] {
    } else {
      var front := entries[..|entries| - 1];
      ExceptShrinks(front, mac);
      assert Has(entries, mac) <==> Has(front, mac) || entries[|entries| - 1].mac == mac;
    }
  }

  // ---- parsing what was printed ----

  /** An entry whose line splits back into it. */
  predicate Plain(e: WolEntry) {
    e.mac != "" && ' ' !in e.mac && '\n' !in e.mac && '\n' !in e.name
  }

  predicate EndsInCr(e: WolEntry) {
    Text(e) != "" && Text(e)[|Text(e)| - 1] == '\r'
  }

  predicate Printable(e: WolEntry) { Plain(e) && !EndsInCr(e) }

  predicate AllPrintable(entries: seq<WolEntry>) { forall i :: 0 <= i < |entries| ==> Printable(entries[i]) }

  predicate AllPlain(entries: seq<WolEntry>) { forall i :: 0 <= i < |entries| ==> Plain(entries[i]) }

  predicate Terminated(content: string) { content == "" || content[|content| - 1] == '\n' }

  lemma {:induction false} IndexIs(s: string, c: char, i: nat)
    requires i <= |s| && c !in s[..i] && (i < |s| ==> s[i] == c)
    ensures IndexOf(s, c) == i
  {
    if i == 0 {
    } else {
      assert s[..i][0] == s[0] && s[1..][..i - 1] == s[..i][1..];
      IndexIs(s[1..], c, i - 1);
    }
  }

  /** A first line and what follows its newline. */
  lemma {:induction false} LinesAt(line: string, rest: string)
    requires '\n' !in line
    ensures Lines(line + "\n" + rest) == [StripCr(line)] + Lines(rest)
  {
    var s := line + "\n" + rest;
    assert s[..|line|] == line && s[|line| + 1..] == rest;
    IndexIs(s, '\n', |line|);
    hide StripCr;
  }

  lemma {:induction false} FirstLine(content: string) returns (line: string, rest: string)
    requires Terminated(content) && content != ""
    ensures '\n' !in line && content == line + "\n" + rest && Terminated(rest) && |rest| < |content|
  {
    var i := IndexOf(content, '\n');
    assert content[..|content|] == content && content[|content| - 1] in content;
    line, rest := content[..i], content[i + 1..];
    assert content == line + [content[i]] + rest;
  }

  lemma {:induction false} Reassociate<T>(a: seq<T>, b: seq<T>, c: seq<T>)
    ensures (a + b) + c == a + (b + c)
  {}

  lemma {:induction false} NothingAround<T>(a: seq<T>)
    ensures a + [] == a && [] + a == a
  {}

  lemma {:induction false} LinesAppend(content: string, line: string)
    requires Terminated(content) && '\n' !in line
    ensures Lines(content + (line + "\n")) == Lines(content) + [StripCr(line)]
    decreases |content|
  {
    hide StripCr, Terminated;
    var added, last := line + "\n", [StripCr(line)];
    if content == "" {
      assert Lines("") == [];
      hide Lines;
      NothingAround(added);
      NothingAround(last);
      LinesAt(line, "");
    } else {
      hide Lines;
      var first, rest := FirstLine(content);
      LinesAt(first, rest);
      LinesAt(first, rest + added);
      Reassociate(first + "\n", rest, added);
      LinesAppend(rest, line);
      Reassociate([StripCr(first)], Lines(rest), last);
    }
  }

  lemma {:induction false} PrintTerminates(entries: seq<WolEntry>, n: nat)
    requires n <= |entries|
    ensures Terminated(PrintTo(entries, n))
  {}

  /** The lines that are read back from a printed list. */
  function Stripped(entries: seq<WolEntry>, n: nat): (lines: seq<string>)
    requires n <= |entries|
    ensures |lines| == n
  {
    seq(n, i requires 0 <= i < n => StripCr(Text(entries[i])))
  }

  lemma {:induction false} TextHasNoNewline(e: WolEntry)
    requires Plain(e)
    ensures '\n' !in Text(e)
  {}

  lemma {:induction false} NoLines()
    ensures Lines("") == []
  {}

  lemma {:induction false} LinesOfPrint(entries: seq<WolEntry>, n: nat)
    requires n <= |entries| && AllPlain(entries)
    ensures Lines(PrintTo(entries, n)) == Stripped(entries, n)
  {
    hide Plain, Text, StripCr, Lines, Terminated;
    if n == 0 {
      NoLines();
    } else {
      var e := entries[n - 1];
      assert Plain(e);
      assert PrintTo(entries, n) == PrintTo(entries, n - 1) + (Text(e) + "\n");
      assert Stripped(entries, n) == Stripped(entries, n - 1) + [StripCr(Text(e))];
      hide PrintTo, Stripped, AllPlain;
      LinesOfPrint(entries, n - 1);
      PrintTerminates(entries, n - 1);
      TextHasNoNewline(e);
      LinesAppend(PrintTo(entries, n - 1), Text(e));
    }
  }

  lemma {:induction false} EntryOfText(e: WolEntry)
    requires Plain(e)
    ensures EntryOf(StripCr(Text(e))) == [e] <==> !EndsInCr(e)
    ensures |EntryOf(StripCr(Text(e)))| <= 1
  {
    var text := Text(e);
    if !EndsInCr(e) {
      assert text[..|e.mac|] == e.mac;
      IndexIs(text, ' ', |e.mac|);
    } else if e.name != "" {
      var cut := text[..|text| - 1];
      assert cut[..|e.mac|] == e.mac;
      IndexIs(cut, ' ', |e.mac|);
      assert cut[|e.mac| + 1..] == e.name[..|e.name| - 1];
    }
  }

  predicate OneLiners(lines: seq<string>) { forall i :: 0 <= i < |lines| ==> '\n' !in lines[i] }

  lemma {:induction false} LinesAreOneLiners(s: string)
    ensures OneLiners(Lines(s))
    decreases |s|
  {
    if s == [] {
    } else {
      var i := IndexOf(s, '\n');
      if i < |s| {
        LinesAreOneLiners(s[i + 1..]);
      } else {
        assert s[..i] == s;
      }
    }
  }

  lemma {:induction false} EntryIsPlain(line: string)
    requires '\n' !in line
    ensures AllPlain(EntryOf(line)) && |EntryOf(line)| <= 1
  {}

  lemma {:induction false} EntriesArePlain(lines: seq<string>, n: nat)
    requires n <= |lines| && OneLiners(lines)
    ensures AllPlain(EntriesOf(lines, n)) && |EntriesOf(lines, n)| <= n
  {
    hide EntryOf, Plain;
    if n == 0 {
    } else {
      EntriesArePlain(lines, n - 1);
      EntryIsPlain(lines[n - 1]);
      var before, more := EntriesOf(lines, n - 1), EntryOf(lines[n - 1]);
      assert EntriesOf(lines, n) == before + more;
      hide EntriesOf, OneLiners;
      PlainJoin(before, more);
    }
  }

  lemma {:induction false} PlainJoin(a: seq<WolEntry>, b: seq<WolEntry>)
    requires AllPlain(a) && AllPlain(b)
    ensures AllPlain(a + b)
  {
    hide Plain;
  }

  /** Whatever the file holds, what is read from it is plain. */
  lemma {:induction false} ParsedArePlain(content: string)
    ensures AllPlain(Parse(content))
  {
    LinesAreOneLiners(content);
    EntriesArePlain(Lines(content), |Lines(content)|);
  }

  /** A printed list of plain entries is read back from the start exactly as far
      as its lines do not end in a carriage return. */
  lemma {:induction false} ReadBackTo(entries: seq<WolEntry>, n: nat)
    requires n <= |entries| && AllPlain(entries)
    ensures var read := EntriesOf(Stripped(entries, |entries|), n);
            |read| <= n && (read == entries[..n] <==> forall i :: 0 <= i < n ==> !EndsInCr(entries[i]))
  {
    hide EntryOf, StripCr, Text, EndsInCr;
    if n == 0 {
    } else {
      ReadBackTo(entries, n - 1);
      var e, lines := entries[n - 1], Stripped(entries, |entries|);
      var before, entry := EntriesOf(lines, n - 1), EntryOf(StripCr(Text(e)));
      assert Plain(e) && lines[n - 1] == StripCr(Text(e));
      EntryOfText(e);
      assert EntriesOf(lines, n) == before + entry;
      hide Stripped, EntriesOf, Plain, AllPlain;
      assert entries[..n] == entries[..n - 1] + [e];
      SameEnds(before, entries[..n - 1], entry, e);
    }
  }

  lemma {:induction false} SameEnds(a: seq<WolEntry>, b: seq<WolEntry>, x: seq<WolEntry>, e: WolEntry)
    requires |a| <= |b| && |x| <= 1
    ensures a + x == b + [e] <==> a == b && x == [e]
  {
    if a + x == b + [e] {
      assert |a| + |x| == |b| + 1;
      assert (a + x)[..|a|] == a && (b + [e])[..|b|] == b && (a + x)[|a|..] == x && (b + [e])[|b|..] == [e];
    }
  }

  /** What `save_all_macs` prints is read back exactly when every entry has an
      address without spaces, no field holds a newline, and no line ends in a
      carriage return. */
  lemma {:induction false} RoundTripExactly(entries: seq<WolEntry>)
    ensures Parse(Print(entries)) == entries <==> AllPrintable(entries)
  {
    if Parse(Print(entries)) == entries {
      ParsedArePlain(Print(entries));
    }
    if AllPlain(entries) {
      LinesOfPrint(entries, |entries|);
      ReadBackTo(entries, |entries|);
      assert entries[..|entries|] == entries;
    }
    hide Lines, EntriesOf, PrintTo, Stripped, Plain, EndsInCr;
    assert AllPrintable(entries) ==> AllPlain(entries) by {
      assert forall i :: 0 <= i < |entries| && Printable(entries[i]) ==> Plain(entries[i]);
    }
  }

  // ---- what is printed, kept and sanitised ----

  /** One line per entry: the address, and the name after one space if there is one. */
  lemma {:induction false} LineForm(mac: string, name: string)
    ensures Line(WolEntry(mac, "")) == mac + "\n"
    ensures name != "" ==> Line(WolEntry(mac, name)) == mac + " " + name + "\n"
  {
    assert name != "" ==> Text(WolEntry(mac, name)) == mac + " " + name;
  }

  lemma {:induction false} NamedExactly(c: char)
    ensures Named(c) <==> 65 <= c as int <= 90 || 97 <= c as int <= 122 || 48 <= c as int <= 57 || c in "_-."
  {}

  /** Sanitising keeps letters, digits and "_-." in order, and drops all else. */
  lemma {:induction false} SanitizedExactly(a: string, b: string)
    ensures Sanitized(a + b) == Sanitized(a) + Sanitized(b)
    ensures |a| == 1 ==> Sanitized(a) == if Named(a[0]) then a else []
    ensures Sanitized("") == ""
  {
    hide Named;
    if |a| == 1 {
      assert a[1..] == "" && Sanitized(a[1..]) == "" && a == [a[0]];
    }
    if a == [] {
      assert a + b == b;
    } else {
      assert (a + b)[0] == a[0] && (a + b)[1..] == a[1..] + b;
      SanitizedExactly(a[1..], b);
    }
  }

  // ---- runs of the store ----

  predicate Unique(entries: seq<WolEntry>) {
    forall i, j :: 0 <= i < j < |entries| ==> entries[i].mac != entries[j].mac
  }

  /** Printable under any name that fits. */
  predicate Sturdy(e: WolEntry) { Printable(e) && e.mac[|e.mac| - 1] != '\r' }

  predicate AllSturdy(entries: seq<WolEntry>) { forall i :: 0 <= i < |entries| ==> Sturdy(entries[i]) }

  /** The file is what the printer would write, with each address once. */
  predicate Canonical(content: string) {
    var entries := Parse(content);
    content == Print(entries) && Unique(entries) && AllSturdy(entries)
  }

  /** A name that fits on its line. */
  predicate NameFits(op: Op) { op.Rename? ==> '\n' !in op.name && (op.name != "" ==> op.name[|op.name| - 1] != '\r') }

  lemma {:induction false} PrintOneMore(entries: seq<WolEntry>, e: WolEntry, n: nat)
    requires n <= |entries|
    ensures PrintTo(entries + [e], n) == PrintTo(entries, n)
  {
    if n == 0 {
    } else {
      PrintOneMore(entries, e, n - 1);
    }
  }

  lemma {:induction false} PrintAppend(entries: seq<WolEntry>, e: WolEntry)
    ensures Print(entries + [e]) == Print(entries) + Line(e)
  {
    PrintOneMore(entries, e, |entries|);
  }

  lemma {:induction false} AddressIsSturdy(mac: string)
    requires Parsed(mac).Some?
    ensures Sturdy(WolEntry(Parsed(mac).value, ""))
  {
    PairedChars(Cleaned(mac), 6);
    hide Paired, Cleaned;
  }

  lemma {:induction false} SanitizedChars(name: string)
    ensures forall i :: 0 <= i < |Sanitized(name)| ==> Named(Sanitized(name)[i])
  {
    if name == [] {
    } else {
      SanitizedChars(name[1..]);
    }
  }

  /** Whatever name `save_mac` is given, the line it appends is read back. */
  lemma {:induction false} SanitizedIsSturdy(mac: string, name: string)
    requires Parsed(mac).Some?
    ensures Sturdy(WolEntry(Parsed(mac).value, Sanitized(name)))
  {
    AddressIsSturdy(mac);
    SanitizedChars(name);
    hide Parsed, Sanitized;
  }

  lemma {:induction false} ExceptIsSublist(entries: seq<WolEntry>, macs: set<string>)
    ensures AllSturdy(entries) ==> AllSturdy(Except(entries, macs))
    ensures Unique(entries) ==> Unique(Except(entries, macs))
    ensures forall i :: 0 <= i < |Except(entries, macs)| ==> Except(entries, macs)[i] in entries && Except(entries, macs)[i].mac !in macs
  {
    if entries == [] {
    } else {
      ExceptIsSublist(entries[..|entries| - 1], macs);
      hide Sturdy;
    }
  }

  lemma {:induction false} AppliedIsGood(entries: seq<WolEntry>, op: Op)
    requires AllSturdy(entries) && Unique(entries) && NameFits(op)
    ensures AllSturdy(Applied(entries, op)) && Unique(Applied(entries, op))
  {
    match op {
      case Wake(mac) =>
        if Parsed(mac).Some? { AddressIsSturdy(mac); }
        hide Sturdy, Parsed;
      case Rename(mac, name) =>
        var i := Find(entries, mac);
        if i < |entries| {
          assert Sturdy(entries[i]);
          assert Sturdy(WolEntry(mac, name)) by { RenamedIsSturdy(mac, entries[i].name, name); }
        }
        hide Sturdy;
      case Delete(mac) => ExceptIsSublist(entries, {mac});
    }
  }

  lemma {:induction false} RenamedIsSturdy(mac: string, was: string, name: string)
    requires Sturdy(WolEntry(mac, was)) && '\n' !in name && (name != "" ==> name[|name| - 1] != '\r')
    ensures Sturdy(WolEntry(mac, name))
  {}

  lemma {:induction false} StoredIsPrinted(content: string, op: Op)
    requires content == Print(Parse(content))
    ensures Stored(content, op) == Print(Applied(Parse(content), op))
  {
    var entries := Parse(content);
    hide Parse, Print, Parsed, Line;
    match op {
      case Wake(mac) =>
        if Parsed(mac).Some? { PrintAppend(entries, WolEntry(Parsed(mac).value, "")); }
      case Rename(mac, name) =>
      case Delete(mac) => ExceptAbsent(entries, mac);
    }
  }

  lemma {:induction false} ExceptAbsent(entries: seq<WolEntry>, mac: string)
    ensures !Has(entries, mac) ==> Except(entries, {mac}) == entries
  {
    if entries == [] {
    } else {
      var front := entries[..|entries| - 1];
      ExceptAbsent(front, mac);
      assert Has(entries, mac) <==> Has(front, mac) || entries[|entries| - 1].mac == mac;
    }
  }

  lemma {:induction false} SturdyIsPrintable(entries: seq<WolEntry>)
    requires AllSturdy(entries)
    ensures AllPrintable(entries)
  {
    forall i | 0 <= i < |entries| ensures Printable(entries[i]) { assert Sturdy(entries[i]); }
  }

  /** On a canonical file each operation does to the text what it does to the list. */
  lemma {:induction false} StoredRefines(content: string, op: Op)
    requires Canonical(content) && NameFits(op)
    ensures Parse(Stored(content, op)) == Applied(Parse(content), op) && Canonical(Stored(content, op))
  {
    var entries := Applied(Parse(content), op);
    hide Parse, Print, Applied, Stored, NameFits, AllSturdy, Unique;
    StoredIsPrinted(content, op);
    AppliedIsGood(Parse(content), op);
    SturdyIsPrintable(entries);
    RoundTripExactly(entries);
  }

  lemma {:induction false} MisfitIsNotPrintable(mac: string, name: string)
    requires !NameFits(Rename(mac, name))
    ensures !Printable(WolEntry(mac, name))
  {
    var e := WolEntry(mac, name);
    assert name != "" && Text(e)[|Text(e)| - 1] == name[|name| - 1];
  }

  /** On a canonical file every operation does to the text what it does to the
      list, except naming a listed address with a name that does not fit. */
  lemma {:induction false} StoredRefinesExactly(content: string, op: Op)
    requires Canonical(content)
    ensures Parse(Stored(content, op)) == Applied(Parse(content), op)
            <==> NameFits(op) || !Has(Parse(content), op.mac)
  {
    var entries := Parse(content);
    if NameFits(op) {
      StoredRefines(content, op);
    } else {
      StoredIsPrinted(content, op);
      MisfitIsNotPrintable(op.mac, op.name);
      hide Parse, Print, Printable, Unique, AllSturdy;
      if Has(entries, op.mac) {
        var renamed := Renamed(entries, op.mac, op.name);
        assert renamed[Find(entries, op.mac)] == WolEntry(op.mac, op.name);
        RoundTripExactly(renamed);
      }
    }
  }

  lemma {:induction false} GoodAppend(entries: seq<WolEntry>, e: WolEntry)
    requires Unique(entries) && AllSturdy(entries) && Sturdy(e) && !Has(entries, e.mac)
    ensures Unique(entries + [e]) && AllSturdy(entries + [e])
  {
    hide Sturdy;
  }

  /** Whatever name `save_mac` is given for a new address, the line it appends is
      read back as one more entry. */
  lemma {:induction false} SavedLineIsReadBack(content: string, mac: string, name: string)
    requires Canonical(content) && Parsed(mac).Some? && !Has(Parse(content), Parsed(mac).value)
    ensures var e := WolEntry(Parsed(mac).value, Sanitized(name));
            Parse(content + Line(e)) == Parse(content) + [e] && Canonical(content + Line(e))
  {
    var entries, e := Parse(content), WolEntry(Parsed(mac).value, Sanitized(name));
    SanitizedIsSturdy(mac, name);
    hide Parse, Print, Parsed, Sanitized, Sturdy, Line, Unique, AllSturdy, Has;
    GoodAppend(entries, e);
    PrintAppend(entries, e);
    SturdyIsPrintable(entries + [e]);
    RoundTripExactly(entries + [e]);
  }

  function ContentAfter(content: string, ops: seq<Op>, n: nat): string
    requires n <= |ops|
  {
    if n == 0 then content else Stored(ContentAfter(content, ops, n - 1), ops[n - 1])
  }

  function EntriesAfter(entries: seq<WolEntry>, ops: seq<Op>, n: nat): seq<WolEntry>
    requires n <= |ops|
  {
    if n == 0 then entries else Applied(EntriesAfter(entries, ops, n - 1), ops[n - 1])
  }

  predicate NamesFit(ops: seq<Op>) { forall i :: 0 <= i < |ops| ==> NameFits(ops[i]) }

  /** Over every run from a canonical file the text stands for the list: it is
      newline-terminated, and its addresses are unique. */
  lemma {:induction false} RunRefines(content: string, ops: seq<Op>, n: nat)
    requires Canonical(content) && NamesFit(ops) && n <= |ops|
    ensures var after := ContentAfter(content, ops, n);
            && Parse(after) == EntriesAfter(Parse(content), ops, n)
            && Canonical(after) && Terminated(after) && Unique(Parse(after))
  {
    hide Parse, Stored, Applied, Print, Unique, AllSturdy, Terminated, NameFits;
    if n == 0 {
    } else {
      RunRefines(content, ops, n - 1);
      StoredRefines(ContentAfter(content, ops, n - 1), ops[n - 1]);
    }
    CanonicalIsTerminated(ContentAfter(content, ops, n));
  }

  lemma {:induction false} CanonicalIsTerminated(content: string)
    requires Canonical(content)
    ensures Terminated(content)
  {
    PrintTerminates(Parse(content), |Parse(content)|);
    hide Parse, Terminated;
  }

  /** The empty store is a place to start from. */
  lemma {:induction false} EmptyIsCanonical()
    ensures Canonical("") && Parse("") == []
  {
    NoLines();
  }

  /** A rename to a name with a newline, of the one address in the file. */
  lemma {:induction false} NewlineIsNotReadBack(mac: string, name: string)
    requires Parsed(mac).Some? && '\n' in name
    ensures var address := Parsed(mac).value; var content := Line(WolEntry(address, ""));
            && Canonical(content) && Parse(content) == [WolEntry(address, "")]
            && Applied(Parse(content), Rename(address, name)) == [WolEntry(address, name)]
            && Parse(Stored(content, Rename(address, name))) != [WolEntry(address, name)]
  {
    var e := WolEntry(Parsed(mac).value, "");
    EmptyIsCanonical();
    assert Sanitized("") == "";
    SavedLineIsReadBack("", mac, "");
    assert "" + Line(e) == Line(e) && [] + [e] == [e];
    hide Parse, Canonical, Stored, Parsed, Line;
    StoredRefinesExactly(Line(e), Rename(e.mac, name));
  }

  /** The addresses an operation is about. */
  function Touched(op: Op): set<string> {
    match op
    case Wake(mac) => if Parsed(mac).Some? then {Parsed(mac).value} else {}
    case Rename(mac, _) => {mac}
    case Delete(mac) => {mac}
  }

  lemma {:induction false} ExceptJoin(a: seq<WolEntry>, e: WolEntry, macs: set<string>)
    ensures Except(a + [e], macs) == Except(a, macs) + if e.mac in macs then [] else [e]
  {
    assert (a + [e])[..|a|] == a;
  }

  lemma {:induction false} ExceptOfExcept(entries: seq<WolEntry>, mac: string, macs: set<string>)
    requires mac in macs
    ensures Except(Except(entries, {mac}), macs) == Except(entries, macs)
  {
    if entries == [] {
    } else {
      var front, last := entries[..|entries| - 1], entries[|entries| - 1];
      ExceptOfExcept(front, mac, macs);
      ExceptJoin(Except(front, {mac}), last, macs);
      assert Except(entries, {mac}) == Except(front, {mac}) + if last.mac in {mac} then [] else [last];
      assert Except(front, {mac}) + [] == Except(front, {mac});
    }
  }

  lemma {:induction false} ExceptOfUpdate(entries: seq<WolEntry>, i: nat, e: WolEntry, macs: set<string>)
    requires i < |entries| && entries[i].mac == e.mac && e.mac in macs
    ensures Except(entries[i := e], macs) == Except(entries, macs)
  {
    var front, last := entries[..|entries| - 1], entries[|entries| - 1];
    var updated := entries[i := e];
    if i < |front| {
      ExceptOfUpdate(front, i, e, macs);
      assert updated[..|entries| - 1] == front[i := e] && updated[|entries| - 1] == last;
    } else {
      assert updated[..|entries| - 1] == front;
    }
  }

  lemma {:induction false} OthersAreKept(entries: seq<WolEntry>, op: Op, macs: set<string>)
    requires Touched(op) <= macs
    ensures Except(Applied(entries, op), macs) == Except(entries, macs)
  {
    match op {
      case Wake(mac) =>
        if Parsed(mac).Some? {
          assert Parsed(mac).value in macs;
          ExceptJoin(entries, WolEntry(Parsed(mac).value, ""), macs);
        }
        hide Parsed;
      case Rename(mac, name) =>
        var i := Find(entries, mac);
        if i < |entries| { ExceptOfUpdate(entries, i, WolEntry(mac, name), macs); }
      case Delete(mac) => ExceptOfExcept(entries, mac, macs);
    }
  }

  // ---- the store as a dictionary ----

  type Book = map<string, string>

  /** The name of each listed address: that of its first entry. */
  function BookOf(entries: seq<WolEntry>): Book {
    if entries == [] then map[]
    else
      var book, last := BookOf(entries[..|entries| - 1]), entries[|entries| - 1];
      if last.mac in book then book else book[last.mac := last.name]
  }

  /** What an operation is for. */
  function Intended(book: Book, op: Op): Book {
    match op
    case Wake(mac) =>
      if Parsed(mac).None? || Parsed(mac).value in book then book else book[Parsed(mac).value := ""]
    case Rename(mac, name) => if mac in book then book[mac := name] else book
    case Delete(mac) => book - {mac}
  }

  lemma {:induction false} BookAt(entries: seq<WolEntry>, mac: string)
    ensures mac in BookOf(entries) <==> Has(entries, mac)
    ensures Has(entries, mac) ==> BookOf(entries)[mac] == entries[Find(entries, mac)].name
  {
    if entries == [] {
    } else {
      var front, last := entries[..|entries| - 1], entries[|entries| - 1];
      BookAt(front, mac);
      var i, j := Find(entries, mac), Find(front, mac);
      assert j < |front| ==> i == j;
      assert j == |front| ==> i == if last.mac == mac then j else |entries|;
    }
  }

  lemma {:induction false} FindIs(entries: seq<WolEntry>, mac: string, i: nat)
    requires i <= |entries| && (i < |entries| ==> entries[i].mac == mac) && forall j :: 0 <= j < i ==> entries[j].mac != mac
    ensures Find(entries, mac) == i
  {}

  lemma {:induction false} SameBook(a: seq<WolEntry>, b: Book)
    requires forall mac :: (mac in b <==> Has(a, mac)) && (mac in b ==> b[mac] == a[Find(a, mac)].name)
    ensures BookOf(a) == b
  {
    forall mac ensures mac in BookOf(a) <==> mac in b { BookAt(a, mac); }
    forall mac | mac in b ensures BookOf(a)[mac] == b[mac] { BookAt(a, mac); }
    hide BookOf, Has;
  }

  lemma {:induction false} WakeBook(entries: seq<WolEntry>, mac: string)
    requires !Has(entries, mac)
    ensures BookOf(entries + [WolEntry(mac, "")]) == BookOf(entries)[mac := ""]
  {
    assert (entries + [WolEntry(mac, "")])[..|entries|] == entries;
    BookAt(entries, mac);
  }

  lemma {:induction false} RenameBook(entries: seq<WolEntry>, mac: string, name: string)
    requires Has(entries, mac)
    ensures BookOf(Renamed(entries, mac, name)) == BookOf(entries)[mac := name]
  {
    var renamed, book := Renamed(entries, mac, name), BookOf(entries)[mac := name];
    forall x ensures (x in book <==> Has(renamed, x)) && (x in book ==> book[x] == renamed[Find(renamed, x)].name) {
      BookAt(entries, x);
      FindIs(renamed, x, Find(entries, x));
    }
    hide BookOf, Has, Renamed;
    SameBook(renamed, book);
  }

  lemma {:induction false} DeleteBook(entries: seq<WolEntry>, mac: string)
    ensures BookOf(Except(entries, {mac})) == BookOf(entries) - {mac}
  {
    if entries == [] {
    } else {
      var front, last := entries[..|entries| - 1], entries[|entries| - 1];
      DeleteBook(front, mac);
      assert entries == front + [last];
      BookJoin(front, last);
      BookJoin(Except(front, {mac}), last);
      ExceptJoin(front, last, {mac});
      hide BookOf, Except;
      assert Except(front, {mac}) + [] == Except(front, {mac});
      DropEntry(BookOf(front), last, mac);
    }
  }

  lemma {:induction false} DropEntry(book: Book, e: WolEntry, mac: string)
    ensures e.mac == mac ==> book[e.mac := e.name] - {mac} == book - {mac}
    ensures e.mac != mac ==> book[e.mac := e.name] - {mac} == (book - {mac})[e.mac := e.name]
    ensures e.mac in book - {mac} <==> e.mac in book && e.mac != mac
  {}

  lemma {:induction false} BookJoin(front: seq<WolEntry>, last: WolEntry)
    ensures BookOf(front + [last]) == if last.mac in BookOf(front) then BookOf(front) else BookOf(front)[last.mac := last.name]
  {
    assert (front + [last])[..|front|] == front;
  }

  /** On every list, duplicates and all, an operation does what it is for; naming
      keeps every address in its place, and a new one comes last. */
  lemma {:induction false} AppliedIsIntended(entries: seq<WolEntry>, op: Op)
    ensures BookOf(Applied(entries, op)) == Intended(BookOf(entries), op)
    ensures op.Rename? ==> |Applied(entries, op)| == |entries| && forall i :: 0 <= i < |entries| ==> Applied(entries, op)[i].mac == entries[i].mac
    ensures op.Wake? ==> entries <= Applied(entries, op)
  {
    match op {
      case Wake(mac) =>
        if Parsed(mac).Some? {
          BookAt(entries, Parsed(mac).value);
          if !Has(entries, Parsed(mac).value) { WakeBook(entries, Parsed(mac).value); }
        }
        hide BookOf, Has, Parsed;
      case Rename(mac, name) =>
        BookAt(entries, mac);
        if Has(entries, mac) { RenameBook(entries, mac, name); }
        hide BookOf;
      case Delete(mac) =>
        DeleteBook(entries, mac);
        hide BookOf, Except;
    }
  }

  function BookAfter(book: Book, ops: seq<Op>, n: nat): Book
    requires n <= |ops|
  {
    if n == 0 then book else Intended(BookAfter(book, ops, n - 1), ops[n - 1])
  }

  /** So over every run from a canonical file, what is read back is the dictionary
      that the operations ask for. */
  lemma {:induction false} RunIsIntended(content: string, ops: seq<Op>, n: nat)
    requires Canonical(content) && NamesFit(ops) && n <= |ops|
    ensures BookOf(Parse(ContentAfter(content, ops, n))) == BookAfter(BookOf(Parse(content)), ops, n)
  {
    hide Parse, Stored, Applied, Print, Canonical, BookOf, Intended, NamesFit;
    RunRefines(content, ops, n);
    EntriesAreIntended(Parse(content), ops, n);
    hide ContentAfter, EntriesAfter, BookAfter;
  }

  lemma {:induction false} EntriesAreIntended(entries: seq<WolEntry>, ops: seq<Op>, n: nat)
    requires n <= |ops|
    ensures BookOf(EntriesAfter(entries, ops, n)) == BookAfter(BookOf(entries), ops, n)
  {
    hide Applied, BookOf, Intended;
    if n == 0 {
    } else {
      EntriesAreIntended(entries, ops, n - 1);
      AppliedIsIntended(EntriesAfter(entries, ops, n - 1), ops[n - 1]);
    }
  }

  /** Entries that no operation of a run is about keep their names and their order. */
  lemma {:induction false} RunKeepsOthers(entries: seq<WolEntry>, ops: seq<Op>, n: nat, macs: set<string>)
    requires n <= |ops| && forall i :: 0 <= i < |ops| ==> Touched(ops[i]) <= macs
    ensures Except(EntriesAfter(entries, ops, n), macs) == Except(entries, macs)
  {
    if n == 0 {
    } else {
      RunKeepsOthers(entries, ops, n - 1, macs);
      OthersAreKept(EntriesAfter(entries, ops, n - 1), ops[n - 1], macs);
      hide Except, Applied, Touched;
    }
  }
}
