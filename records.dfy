/**
 * The accounts file: one line per account, `id,password,type,balance`, and the
 * dictionary that reading such a file line by line builds.
 */
module Records {
  import opened Results
  import opened Text
  import opened OrderedDict
  import opened Ledger

  /** What one line of the file holds about an account. */
  datatype Record = Record(id: string, password: string, kind: Kind, balance: int)

  /** Why a line cannot be read: it does not have four fields, or its balance is not a number. */
  datatype LoadError = FieldCount(got: nat) | BadBalance(text: string)

  // ---------------------------------------------------------------- balance field

  /** How a whole-number balance is written: as Python writes the float, with a `.0`. */
  function BalanceText(b: int): string {
    IntText(b) + ".0"
  }

  predicate ZeroFraction(body: string, dot: nat)
    requires dot <= |body|
  {
    forall i :: dot < i < |body| ==> body[i] == '0'
  }

  /** Reads an unsigned balance: digits, and optionally a point followed only by zeros. */
  function ParseMagnitude(body: string): (v: Option<nat>)
    ensures v.Some? ==> body != [] && IsDigit(body[0])
  {
    var dot := IndexOf(body, '.');
    var whole := body[..dot];
    if whole != [] && AllDigits(whole) && ZeroFraction(body, dot) then
      assert whole[0] == body[0] && IsDigit(whole[0]);
      Some(DigitsValue(whole))
    else None
  }

  /** Reads a balance: an optional sign in front of what `ParseMagnitude` reads. */
  function ParseBalance(t: string): (r: Option<int>)
    ensures r.Some? ==> t != [] && (t[0] == '-' || t[0] == '+' || IsDigit(t[0]))
    ensures r.Some? && t[0] == '-' ==> r.value <= 0
    ensures r.Some? && t[0] != '-' ==> r.value >= 0
  {
    if t != [] && t[0] == '-' then
      match ParseMagnitude(t[1..])
      case None => None
      case Some(v) => Some(-(v as int))
    else if t != [] && t[0] == '+' then
      match ParseMagnitude(t[1..])
      case None => None
      case Some(v) => Some(v as int)
    else
      match ParseMagnitude(t)
      case None => None
      case Some(v) => Some(v as int)
  }

  /** `digits + ".0"` reads back as the digits' value. */
  lemma ParseUnsigned(digits: string)
    requires digits != [] && AllDigits(digits)
    ensures ParseMagnitude(digits + ".0") == Some(DigitsValue(digits))
  {
    var body := digits + ".0";
    assert '.' !in digits by {
      forall i | 0 <= i < |digits| ensures digits[i] != '.' {
        assert IsDigit(digits[i]);
      }
    }
    IndexOfAfter(digits, '.', "0");
    assert body == digits + ['.'] + "0";
    assert body[..|digits|] == digits;
    assert |body| == |digits| + 2 && body[|digits| + 1] == '0';
  }

  /** Reading back the balance text gives the balance. */
  lemma BalanceRoundTrip(b: int)
    ensures ParseBalance(BalanceText(b)) == Some(b)
  {
    if b < 0 {
      NegativeRoundTrip(-b);
      assert BalanceText(b) == "-" + (NatText(-b) + ".0");
    } else {
      UnsignedRoundTrip(b);
      assert BalanceText(b) == NatText(b) + ".0";
    }
  }

  lemma UnsignedRoundTrip(n: nat)
    ensures ParseBalance(NatText(n) + ".0") == Some(n as int)
  {
    var digits := NatText(n);
    NatTextValue(n);
    ParseUnsigned(digits);
    assert (digits + ".0")[0] == digits[0];
    assert IsDigit(digits[0]);
  }

  lemma NegativeRoundTrip(n: nat)
    requires n > 0
    ensures ParseBalance("-" + (NatText(n) + ".0")) == Some(-(n as int))
  {
    var digits := NatText(n);
    NatTextValue(n);
    ParseUnsigned(digits);
    var t := "-" + (digits + ".0");
    assert t[0] == '-' && t[1..] == digits + ".0";
  }

  /** The balance text holds no comma and no newline, and ends in a digit. */
  lemma BalanceShape(b: int)
    ensures Plain(BalanceText(b))
    ensures BalanceText(b)[|BalanceText(b)| - 1] == '0'
  {
    var n: nat := if b < 0 then -b else b;
    var digits := NatText(n);
    var bt := BalanceText(b);
    var sign := if b < 0 then "-" else "";
    assert bt == sign + digits + ".0";
    forall i | 0 <= i < |bt| ensures bt[i] != ',' && bt[i] != '\n' {
      if |sign| <= i < |sign| + |digits| {
        assert bt[i] == digits[i - |sign|];
        assert IsDigit(digits[i - |sign|]);
      }
    }
  }

  // ---------------------------------------------------------------- one line

  function Fields(r: Record): seq<string> {
    [r.id, r.password, KindText(r.kind), BalanceText(r.balance)]
  }

  /** The line written for an account, newline included. */
  function FormatLine(r: Record): (l: string)
    ensures l != [] && l[|l| - 1] == '\n'
    ensures WellFormed(r) ==> IsLine(l)
  {
    var text := Join(Fields(r), ',');
    assert WellFormed(r) ==> '\n' !in text by {
      if WellFormed(r) {
        BalanceShape(r.balance);
        assert '\n' !in KindText(r.kind);
        JoinAvoids(Fields(r), ',', '\n');
      }
    }
    text + "\n"
  }

  /** Reads one line: strips it, splits it on commas, and needs exactly four fields and a numeric balance. */
  function ParseLine(line: string): (r: Result<Record, LoadError>)
    ensures r.Success? ==> ',' !in r.value.id && ',' !in r.value.password
    ensures r.Success? ==> r.value.id == [] || !IsSpace(r.value.id[0])
    ensures r.Failure? && r.error.FieldCount? ==> r.error.got != 4
    ensures r.Failure? && r.error.BadBalance? ==> ParseBalance(r.error.text).None?
    ensures var f := Split(Strip(line), ','); r.Success? <==> |f| == 4 && ParseBalance(f[3]).Some?
    ensures var f := Split(Strip(line), ','); |f| != 4 ==> r == Failure(FieldCount(|f|))
    ensures var f := Split(Strip(line), ',');
      r.Success? ==> r.value == Record(f[0], f[1], KindOf(f[2]), ParseBalance(f[3]).value)
  {
    var s := Strip(line);
    var fields := Split(s, ',');
    if |fields| != 4 then Failure(FieldCount(|fields|))
    else match ParseBalance(fields[3])
      case None => Failure(BadBalance(fields[3]))
      case Some(b) =>
        assert fields[0] != [] ==> fields[0][0] == s[0];
        Success(Record(fields[0], fields[1], KindOf(fields[2]), b))
  }

  /** An id or password the line format carries unchanged: no comma, no newline. */
  predicate Plain(s: string) {
    ',' !in s && '\n' !in s
  }

  /** An id and password that survive being written and read back: plain, and an id not starting with whitespace (it would be stripped). */
  predicate Storable(id: string, password: string) {
    Plain(id) && Plain(password) && (id == [] || !IsSpace(id[0]))
  }

  predicate WellFormed(r: Record) {
    Storable(r.id, r.password)
  }

  lemma JoinFour(a: string, b: string, c: string, d: string, sep: char)
    ensures Join([a, b, c, d], sep) == a + [sep] + b + [sep] + c + [sep] + d
  {
    assert [c, d][1..] == [d];
    assert Join([c, d], sep) == c + [sep] + d;
    assert [b, c, d][1..] == [c, d];
    assert Join([b, c, d], sep) == b + [sep] + c + [sep] + d;
    assert [a, b, c, d][1..] == [b, c, d];
  }

  /** The line is the four fields with commas between them and a newline after them. */
  lemma FormatLineText(r: Record)
    ensures FormatLine(r) == r.id + "," + r.password + "," + KindText(r.kind) + "," + BalanceText(r.balance) + "\n"
  {
    JoinFour(r.id, r.password, KindText(r.kind), BalanceText(r.balance), ',');
  }

  /** Four plain fields, the first not starting and the last not ending with whitespace, join into such a text. */
  lemma JoinedFourShape(id: string, password: string, t: string, bt: string)
    requires Plain(id) && Plain(password) && Plain(t) && Plain(bt)
    requires id == [] || !IsSpace(id[0])
    requires bt != [] && !IsSpace(bt[|bt| - 1])
    ensures var text := Join([id, password, t, bt], ',');
      text != [] && !IsSpace(text[0]) && !IsSpace(text[|text| - 1]) && '\n' !in text
  {
    var text := Join([id, password, t, bt], ',');
    JoinFour(id, password, t, bt, ',');
    JoinAvoids([id, password, t, bt], ',', '\n');
    assert text[0] == if id == [] then ',' else id[0];
    assert text[|text| - 1] == bt[|bt| - 1];
  }

  /** Four plain fields joined into a line are what stripping and splitting that line gives back. */
  lemma SplitFourFields(id: string, password: string, t: string, bt: string)
    requires Plain(id) && Plain(password) && Plain(t) && Plain(bt)
    requires id == [] || !IsSpace(id[0])
    requires bt != [] && !IsSpace(bt[|bt| - 1])
    ensures Split(Strip(Join([id, password, t, bt], ',') + "\n"), ',') == [id, password, t, bt]
  {
    var fields := [id, password, t, bt];
    var text := Join(fields, ',');
    JoinedFourShape(id, password, t, bt);
    StripLine(text);
    assert Strip(text + "\n") == text;
    assert forall i :: 0 <= i < |fields| ==> ',' !in fields[i];
    SplitJoin(fields, ',');
  }

  /** A line built from four plain fields reads back as those fields, whatever the type name. */
  lemma ParseFields(id: string, password: string, t: string, b: int)
    requires Plain(id) && Plain(password) && Plain(t)
    requires id == [] || !IsSpace(id[0])
    ensures ParseLine(Join([id, password, t, BalanceText(b)], ',') + "\n")
      == Success(Record(id, password, KindOf(t), b))
  {
    BalanceShape(b);
    SplitFourFields(id, password, t, BalanceText(b));
    BalanceRoundTrip(b);
  }

  /** A well-formed record reads back from its line unchanged. */
  lemma ParseFormat(r: Record)
    requires WellFormed(r)
    ensures ParseLine(FormatLine(r)) == Success(r)
  {
    ParseFields(r.id, r.password, KindText(r.kind), r.balance);
    KindRoundTrip(r.kind);
  }

  /** A type field other than "Personal" is read as a business account. */
  lemma UnknownTypeIsBusiness(id: string, password: string, t: string, b: int)
    requires Plain(id) && Plain(password) && Plain(t) && t != "Personal"
    requires id == [] || !IsSpace(id[0])
    ensures ParseLine(Join([id, password, t, BalanceText(b)], ',') + "\n")
      == Success(Record(id, password, Business, b))
  {
    ParseFields(id, password, t, b);
  }

  /** A line of nothing but whitespace, such as a blank last line, has one (empty) field and is rejected. */
  lemma BlankLineRejected(line: string)
    requires forall i :: 0 <= i < |line| ==> IsSpace(line[i])
    ensures ParseLine(line) == Failure(FieldCount(1))
  {
    assert Strip(line) == [];
  }

  /** Whatever a line of the file reads as is well-formed. */
  lemma ParsedWellFormed(line: string)
    requires IsLine(line) && ParseLine(line).Success?
    ensures WellFormed(ParseLine(line).value)
  {
    var s := Strip(line);
    StripOfLine(line);
    var fields := Split(s, ',');
    SplitAvoids(s, ',', '\n');
    if fields[0] != [] {
      assert fields[0][0] == s[0];
    }
  }

  // ---------------------------------------------------------------- the whole file

  /** Every entry is filed under its own id and would survive a save and a load. */
  ghost predicate Consistent(d: Dict<Record>) {
    && d.Valid()
    && forall k :: k in d.entries ==> d.entries[k].id == k && WellFormed(d.entries[k])
  }

  /** Reads lines in order into `d`; a later line with an id already read replaces that entry. */
  function ParseLines(lines: seq<string>, d: Dict<Record>): (r: Result<Dict<Record>, LoadError>)
    requires d.Valid()
    ensures r.Success? ==> r.value.Valid()
    ensures r.Success? ==> d.keys <= r.value.keys
  {
    if lines == [] then Success(d)
    else match ParseLine(lines[0])
      case Failure(e) => Failure(e)
      case Success(rec) => ParseLines(lines[1..], d.Put(rec.id, rec))
  }

  /** What loading a file's text yields. */
  function ParseFile(text: string): (r: Result<Dict<Record>, LoadError>)
    ensures text == [] ==> r == Success(Empty())
    ensures r.Success? ==> Consistent(r.value)
  {
    ParseLinesConsistent(Lines(text), Empty());
    ParseLines(Lines(text), Empty())
  }

  lemma {:induction false} ParseLinesConsistent(lines: seq<string>, d: Dict<Record>)
    requires Consistent(d)
    requires forall i :: 0 <= i < |lines| ==> IsLine(lines[i])
    ensures ParseLines(lines, d).Success? ==> Consistent(ParseLines(lines, d).value)
  {
    if lines != [] && ParseLine(lines[0]).Success? {
      var rec := ParseLine(lines[0]).value;
      ParsedWellFormed(lines[0]);
      PutConsistent(d, rec);
      var next := d.Put(rec.id, rec);
      assert ParseLines(lines, d) == ParseLines(lines[1..], next);
      ParseLinesConsistent(lines[1..], next);
    }
  }

  /** Filing a well-formed record under its own id keeps the dictionary consistent. */
  lemma PutConsistent(d: Dict<Record>, rec: Record)
    requires Consistent(d) && WellFormed(rec)
    ensures Consistent(d.Put(rec.id, rec))
  {
  }

  /** The text written for the entries under `keys`, one line each, in that order. */
  function SerialiseKeys(keys: seq<string>, entries: map<string, Record>): (s: string)
    requires forall k :: k in keys ==> k in entries
    ensures s == [] <==> keys == []
    ensures s != [] ==> s[|s| - 1] == '\n'
  {
    if keys == [] then [] else FormatLine(entries[keys[0]]) + SerialiseKeys(keys[1..], entries)
  }

  /** What saving writes: every entry's line, in the dictionary's order. */
  function Serialise(d: Dict<Record>): (s: string)
    requires d.Valid()
    ensures s == [] <==> d.entries == map[]
    ensures s != [] ==> s[|s| - 1] == '\n'
  {
    assert d.keys != [] ==> d.keys[0] in d.entries;
    SerialiseKeys(d.keys, d.entries)
  }

  /** Writing one more key appends its line. */
  lemma {:induction false} SerialiseSnoc(keys: seq<string>, k: string, entries: map<string, Record>)
    requires forall j :: j in keys ==> j in entries
    requires k in entries
    ensures SerialiseKeys(keys + [k], entries) == SerialiseKeys(keys, entries) + FormatLine(entries[k])
  {
    if keys != [] {
      assert (keys + [k])[1..] == keys[1..] + [k];
      SerialiseSnoc(keys[1..], k, entries);
    }
  }

  /** Writing the first `i + 1` keys writes the first `i` and then the line of key `i`. */
  lemma SerialiseStep(keys: seq<string>, i: nat, entries: map<string, Record>)
    requires forall j :: j in keys ==> j in entries
    requires i < |keys|
    ensures SerialiseKeys(keys[..i + 1], entries) == SerialiseKeys(keys[..i], entries) + FormatLine(entries[keys[i]])
  {
    assert keys[..i + 1] == keys[..i] + [keys[i]];
    SerialiseSnoc(keys[..i], keys[i], entries);
  }

  /** The entries of `d` under its first `i` keys. */
  function Prefix(d: Dict<Record>, i: nat): (p: Dict<Record>)
    requires d.Valid() && i <= |d.keys|
    ensures p.Valid()
  {
    var ks := d.keys[..i];
    Dict(ks, map k | k in ks :: d.entries[k])
  }

  /** The line of a well-formed record is read as a line of its own, whatever follows it. */
  lemma FormatLineLines(r: Record, rest: string)
    requires WellFormed(r)
    ensures Lines(FormatLine(r) + rest) == [FormatLine(r)] + Lines(rest)
  {
    BalanceShape(r.balance);
    assert '\n' !in KindText(r.kind);
    JoinAvoids(Fields(r), ',', '\n');
    LinesCons(Join(Fields(r), ','), rest);
    assert FormatLine(r) + rest == Join(Fields(r), ',') + "\n" + rest;
  }

  /** Reading the lines from the `i`-th on: that line's error, or the rest read into `d` with that line's record put in. */
  lemma ParseLinesFrom(lines: seq<string>, i: nat, d: Dict<Record>)
    requires d.Valid() && i < |lines|
    ensures ParseLine(lines[i]).Failure? ==> ParseLines(lines[i..], d) == Failure(ParseLine(lines[i]).error)
    ensures ParseLine(lines[i]).Success? ==>
      var rec := ParseLine(lines[i]).value;
      ParseLines(lines[i..], d) == ParseLines(lines[i + 1..], d.Put(rec.id, rec))
  {
    assert lines[i..][0] == lines[i];
    assert lines[i..][1..] == lines[i + 1..];
  }

  lemma ParseLinesCons(line: string, r: Record, lines: seq<string>, d: Dict<Record>)
    requires d.Valid() && ParseLine(line) == Success(r)
    ensures ParseLines([line] + lines, d) == ParseLines(lines, d.Put(r.id, r))
  {
    assert ([line] + lines)[0] == line;
    assert ([line] + lines)[1..] == lines;
  }

  lemma PrefixStep(d: Dict<Record>, i: nat)
    requires d.Valid() && i < |d.keys|
    ensures Prefix(d, i).Put(d.keys[i], d.entries[d.keys[i]]) == Prefix(d, i + 1)
  {
    var k := d.keys[i];
    assert k !in d.keys[..i];
    assert d.keys[..i] + [k] == d.keys[..i + 1];
  }

  lemma {:induction false} ParseSerialised(d: Dict<Record>, i: nat)
    requires Consistent(d) && i <= |d.keys|
    ensures ParseLines(Lines(SerialiseKeys(d.keys[i..], d.entries)), Prefix(d, i)) == Success(d)
    decreases |d.keys| - i
  {
    if i == |d.keys| {
      assert d.keys[i..] == [];
      assert d.keys[..i] == d.keys;
      assert Prefix(d, i) == d;
    } else {
      var r := d.entries[d.keys[i]];
      var rest := SerialiseKeys(d.keys[i + 1..], d.entries);
      assert d.keys[i..][1..] == d.keys[i + 1..];
      assert SerialiseKeys(d.keys[i..], d.entries) == FormatLine(r) + rest;
      FormatLineLines(r, rest);
      ParseFormat(r);
      ParseLinesCons(FormatLine(r), r, Lines(rest), Prefix(d, i));
      PrefixStep(d, i);
      ParseSerialised(d, i + 1);
    }
  }

  /** Saving and then loading gives back the same dictionary, order included. */
  lemma SaveLoadRoundTrip(d: Dict<Record>)
    requires Consistent(d)
    ensures ParseFile(Serialise(d)) == Success(d)
  {
    ParseSerialised(d, 0);
    assert d.keys[0..] == d.keys;
    assert Prefix(d, 0) == Empty();
  }

  /** Reading `a + b` reads `a`, then reads `b` into what `a` gave, unless `a` already failed. */
  lemma {:induction false} ParseLinesAppend(a: seq<string>, b: seq<string>, d: Dict<Record>)
    requires d.Valid()
    ensures ParseLines(a, d).Failure? ==> ParseLines(a + b, d) == ParseLines(a, d)
    ensures ParseLines(a, d).Success? ==> ParseLines(a + b, d) == ParseLines(b, ParseLines(a, d).value)
    decreases |a|
  {
    if a == [] {
      assert a + b == b;
    } else {
      assert (a + b)[0] == a[0] && (a + b)[1..] == a[1..] + b;
      match ParseLine(a[0]) {
        case Failure(_) =>
        case Success(rec) => ParseLinesAppend(a[1..], b, d.Put(rec.id, rec));
      }
    }
  }

  /** One more line at the end: the load fails as before, or fails on that line, or files that line's record last. */
  lemma ParseLinesSnoc(lines: seq<string>, l: string, d: Dict<Record>)
    requires d.Valid()
    ensures ParseLines(lines, d).Failure? ==> ParseLines(lines + [l], d) == ParseLines(lines, d)
    ensures ParseLines(lines, d).Success? && ParseLine(l).Failure? ==> ParseLines(lines + [l], d) == Failure(ParseLine(l).error)
    ensures ParseLines(lines, d).Success? && ParseLine(l).Success? ==>
      var rec := ParseLine(l).value;
      ParseLines(lines + [l], d) == Success(ParseLines(lines, d).value.Put(rec.id, rec))
  {
    ParseLinesAppend(lines, [l], d);
    if ParseLines(lines, d).Success? {
      var m := ParseLines(lines, d).value;
      assert [l][0] == l && [l][1..] == [];
      if ParseLine(l).Success? {
        assert ParseLines([l], m) == ParseLines([], m.Put(ParseLine(l).value.id, ParseLine(l).value));
      }
    }
  }

  /** Reading lines none of which is for `k` leaves the entry under `k` as it was, present or absent. */
  lemma {:induction false} ParseLinesKeeps(lines: seq<string>, d: Dict<Record>, k: string)
    requires d.Valid() && ParseLines(lines, d).Success?
    requires forall i :: 0 <= i < |lines| && ParseLine(lines[i]).Success? ==> ParseLine(lines[i]).value.id != k
    ensures k in ParseLines(lines, d).value.entries <==> k in d.entries
    ensures k in d.entries ==> ParseLines(lines, d).value.entries[k] == d.entries[k]
    decreases |lines|
  {
    if lines != [] {
      var rec := ParseLine(lines[0]).value;
      var next := d.Put(rec.id, rec);
      var rest := lines[1..];
      assert ParseLines(lines, d) == ParseLines(rest, next);
      assert rec.id != k;
      assert forall i :: 0 <= i < |rest| ==> rest[i] == lines[i + 1];
      ParseLinesKeeps(rest, next, k);
    }
  }

  /**
   * Within one load a later line for an id overrules an earlier one, wherever
   * the two lines stand: when the load succeeds, the record of line `j` is the
   * one filed under its id unless a later line carries that id too.
   */
  lemma LaterLineWins(lines: seq<string>, j: nat, rec: Record, d: Dict<Record>)
    requires d.Valid() && j < |lines| && ParseLines(lines, d).Success?
    requires ParseLine(lines[j]) == Success(rec)
    requires forall i :: j < i < |lines| && ParseLine(lines[i]).Success? ==> ParseLine(lines[i]).value.id != rec.id
    ensures rec.id in ParseLines(lines, d).value.entries
    ensures ParseLines(lines, d).value.entries[rec.id] == rec
  {
    var front, back, after := lines[..j], lines[j..], lines[j + 1..];
    var loaded := ParseLines(lines, d);
    SplitAt(lines, j);
    ParseLinesAppend(front, back, d);
    var m := ParseLines(front, d).value;
    var next := m.Put(rec.id, rec);
    assert ParseLines(back, m) == loaded;
    ParseLinesFrom(lines, j, m);
    assert ParseLines(after, next) == loaded;
    AfterLines(lines, j, after, rec.id);
    ParseLinesKeeps(after, next, rec.id);
  }

  lemma SplitAt(lines: seq<string>, j: nat)
    requires j <= |lines|
    ensures lines[..j] + lines[j..] == lines
  {
  }

  /** The lines after line `j` keep its id out when no line after `j` in `lines` carries it. */
  lemma AfterLines(lines: seq<string>, j: nat, after: seq<string>, k: string)
    requires j < |lines| && after == lines[j + 1..]
    requires forall i :: j < i < |lines| && ParseLine(lines[i]).Success? ==> ParseLine(lines[i]).value.id != k
    ensures forall i :: 0 <= i < |after| && ParseLine(after[i]).Success? ==> ParseLine(after[i]).value.id != k
  {
    forall i | 0 <= i < |after|
      ensures after[i] == lines[j + 1 + i]
    {
    }
  }

  /** Two lines for the same id: the file loads as one account, the second line's. */
  lemma SameIdTwice(a: Record, b: Record)
    requires WellFormed(a) && WellFormed(b) && a.id == b.id
    ensures ParseFile(FormatLine(a) + FormatLine(b)) == Success(Dict([a.id], map[a.id := b]))
  {
    TwoLines(a, b);
    ParseFormat(a);
    ParseFormat(b);
    ParseTwoLines(FormatLine(a), a, FormatLine(b), b);
  }

  lemma TwoLines(a: Record, b: Record)
    requires WellFormed(a) && WellFormed(b)
    ensures Lines(FormatLine(a) + FormatLine(b)) == [FormatLine(a), FormatLine(b)]
  {
    var la, lb := FormatLine(a), FormatLine(b);
    FormatLineLines(b, "");
    assert lb + "" == lb;
    FormatLineLines(a, lb);
  }

  lemma ParseTwoLines(la: string, a: Record, lb: string, b: Record)
    requires ParseLine(la) == Success(a) && ParseLine(lb) == Success(b) && a.id == b.id
    ensures ParseLines([la, lb], Empty()) == Success(Dict([a.id], map[a.id := b]))
  {
    ParseFirstOfTwo(la, a, lb, Empty());
    ParseLastLine(lb, b, Empty<Record>().Put(a.id, a));
    PutTwice(a.id, a, b);
  }

  lemma ParseFirstOfTwo(la: string, a: Record, lb: string, d: Dict<Record>)
    requires d.Valid() && ParseLine(la) == Success(a)
    ensures ParseLines([la, lb], d) == ParseLines([lb], d.Put(a.id, a))
  {
    var lines := [la, lb];
    ParseLinesFrom(lines, 0, d);
    assert lines[0..] == lines && lines[1..] == [lb];
  }

  lemma ParseLastLine(line: string, r: Record, d: Dict<Record>)
    requires d.Valid() && ParseLine(line) == Success(r)
    ensures ParseLines([line], d) == Success(d.Put(r.id, r))
  {
    ParseLinesCons(line, r, [], d);
    assert [line] + [] == [line];
  }
}
