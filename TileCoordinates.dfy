/** A canvas position as (tile-x, tile-y, x within the tile, y within the
    tile), and the character-by-character reader of its textual form
    "(tile_x: T, tile_y: T, x: N, y: N)". */
module TileCoordinates {
  import opened Prelude

  datatype TileCoords = TileCoords(tileX: u16, tileY: u16, x: u16, y: u16)

  /** `TileCoords::new`: the four arguments are stored as they are. */
  function New(tileX: u16, tileY: u16, x: u16, y: u16): (c: TileCoords)
    ensures c.tileX == tileX && c.tileY == tileY && c.x == x && c.y == y
  {
    TileCoords(tileX, tileY, x, y)
  }

  /** Why a decimal field did not parse (the kind of Rust's `ParseIntError`). */
  datatype IntErrorKind = Empty | InvalidDigit | PosOverflow

  datatype TileCoordsError = ParseError(kind: IntErrorKind)

  /** What reading a coordinate string ends in: a value, a parse error, or a
      panic at one of the reader's `unreachable!()` arms. */
  type ParseOutcome = Exit<Result<TileCoords, TileCoordsError>>

  // ---------------------------------------------------------------------
  // Decimal fields: Rust's `str::parse::<u16>`
  // ---------------------------------------------------------------------

  predicate IsDigit(ch: char)
  {
    '0' <= ch <= '9'
  }

  predicate AllDigits(s: string)
  {
    forall i :: 0 <= i < |s| ==> IsDigit(s[i])
  }

  function DigitValue(ch: char): nat
    requires IsDigit(ch)
  {
    ch as int - '0' as int
  }

  function DigitChar(d: nat): (ch: char)
    requires d < 10
    ensures IsDigit(ch) && DigitValue(ch) == d
  {
    ('0' as int + d) as char
  }

  /** The value of the digit string `s` read left to right, starting from
      the value `acc` of the digits already read. */
  function Horner(acc: nat, s: string): nat
    requires AllDigits(s)
    decreases |s|
  {
    if s == [] then acc else Horner(acc * 10 + DigitValue(s[0]), s[1..])
  }

  /** The shortest decimal spelling of `n`. */
  function Dec(n: nat): (s: string)
    ensures |s| >= 1 && AllDigits(s)
  {
    if n < 10 then [DigitChar(n)] else Dec(n / 10) + [DigitChar(n % 10)]
  }

  /** The digit loop of Rust's unsigned integer parser: each character is
      first checked to be a digit, then the running value is multiplied by
      ten and the digit added, and a value past 65535 is an overflow. The
      first failing character decides the error. */
  function ParseDigits(acc: u16, s: string): Result<u16, IntErrorKind>
    decreases |s|
  {
    if s == [] then Ok(acc)
    else if !IsDigit(s[0]) then Err(InvalidDigit)
    else if acc * 10 + DigitValue(s[0]) > 0xFFFF then Err(PosOverflow)
    else ParseDigits(acc * 10 + DigitValue(s[0]), s[1..])
  }

  /** Rust's `str::parse::<u16>`: the empty string is `Empty`; one leading
      '+' is allowed, but a lone "+" is an invalid digit; then the digits.
      A field parses exactly when it is an optional '+' followed by one or
      more digits whose value is at most 65535, and then gives that value;
      only the empty field is reported as `Empty`. */
  function ParseU16(s: string): (r: Result<u16, IntErrorKind>)
    ensures r.Ok? <==>
              var digits := if s != [] && s[0] == '+' then s[1..] else s;
              digits != [] && AllDigits(digits) && Horner(0, digits) <= 0xFFFF
    ensures r.Ok? ==> r.value == Horner(0, if s[0] == '+' then s[1..] else s)
    ensures r == Err(Empty) <==> s == []
  {
    if s == [] then Err(Empty)
    else if s[0] == '+' && |s| == 1 then Err(InvalidDigit)
    else
      var digits := if s[0] == '+' then s[1..] else s;
      ParseDigitsValue(0, digits);
      ParseDigitsNeverEmpty(0, digits);
      ParseDigits(0, digits)
  }

  lemma {:induction false} HornerGrows(acc: nat, s: string)
    requires AllDigits(s)
    ensures Horner(acc, s) >= acc
    decreases |s|
  {
    if s != [] {
      HornerGrows(acc * 10 + DigitValue(s[0]), s[1..]);
    }
  }

  lemma {:induction false} HornerSnoc(acc: nat, s: string, ch: char)
    requires AllDigits(s) && IsDigit(ch)
    ensures AllDigits(s + [ch])
    ensures Horner(acc, s + [ch]) == Horner(acc, s) * 10 + DigitValue(ch)
    decreases |s|
  {
    if s != [] {
      assert (s + [ch])[1..] == s[1..] + [ch];
      HornerSnoc(acc * 10 + DigitValue(s[0]), s[1..], ch);
    }
  }

  /** The digit loop accepts exactly the digit strings whose value fits in
      16 bits, and then returns that value. */
  lemma {:induction false} ParseDigitsValue(acc: u16, s: string)
    ensures ParseDigits(acc, s).Ok? <==> AllDigits(s) && Horner(acc, s) <= 0xFFFF
    ensures ParseDigits(acc, s).Ok? ==> ParseDigits(acc, s).value == Horner(acc, s)
    decreases |s|
  {
    if s != [] {
      if !IsDigit(s[0]) {
        assert !AllDigits(s);
      } else {
        var n := acc * 10 + DigitValue(s[0]);
        assert AllDigits(s) <==> AllDigits(s[1..]) by {
          if AllDigits(s[1..]) {
            forall i | 0 <= i < |s| ensures IsDigit(s[i]) {
              if i > 0 { assert s[i] == s[1..][i - 1]; }
            }
          }
        }
        if n > 0xFFFF {
          if AllDigits(s) { HornerGrows(n, s[1..]); }
        } else {
          ParseDigitsValue(n, s[1..]);
        }
      }
    }
  }

  /** The digit loop reports an invalid digit or an overflow, never an
      empty field. */
  lemma {:induction false} ParseDigitsNeverEmpty(acc: u16, s: string)
    ensures ParseDigits(acc, s) != Err(Empty)
    decreases |s|
  {
    if s != [] && IsDigit(s[0]) && acc * 10 + DigitValue(s[0]) <= 0xFFFF {
      ParseDigitsNeverEmpty(acc * 10 + DigitValue(s[0]), s[1..]);
    }
  }

  /** Reading back the decimal spelling of a number gives that number. */
  lemma {:induction false} HornerDec(n: nat)
    ensures Horner(0, Dec(n)) == n
  {
    if n >= 10 {
      HornerDec(n / 10);
      HornerSnoc(0, Dec(n / 10), DigitChar(n % 10));
    }
  }

  /** A 16-bit number written in decimal, with or without a leading '+',
      parses back to itself. */
  lemma ParseU16Dec(n: u16)
    ensures ParseU16(Dec(n)) == Ok(n)
    ensures ParseU16(['+'] + Dec(n)) == Ok(n)
  {
    HornerDec(n);
    ParseDigitsValue(0, Dec(n));
    assert (['+'] + Dec(n))[1..] == Dec(n);
  }

  // ---------------------------------------------------------------------
  // The coordinate-string reader
  // ---------------------------------------------------------------------

  /** The reader's variables between two characters: the text buffered for
      the current field, the coordinates committed so far, whether
      characters are being buffered, the last character remembered and the
      number of the current field (1 to 4 once the first field started). */
  datatype Scanner = Scanner(buff: string, out: TileCoords, isWriting: bool, last: char, counter: nat)

  const Start := Scanner([], New(0, 0, 0, 0), false, ' ', 0)

  /** What one character does: the reader carries on, or it stops with its
      final outcome. */
  datatype Move = Next(scanner: Scanner) | Stop(outcome: ParseOutcome)

  /** Stores `v` in field `k` (1 = tile_x, 2 = tile_y, 3 = x, 4 = y). */
  function Commit(out: TileCoords, k: nat, v: u16): TileCoords
    requires 1 <= k <= 4
  {
    if k == 1 then out.(tileX := v)
    else if k == 2 then out.(tileY := v)
    else if k == 3 then out.(x := v)
    else out.(y := v)
  }

  /** The characters that end a field. */
  predicate IsTerminator(ch: char)
  {
    ch == ',' || ch == ')'
  }

  /** One iteration of the reader's loop. A ':' followed by a space starts a
      field and does not become the remembered last character, so every
      further space still follows the ':'. A ',' or ')' commits the buffer
      to the current field; field 4 ends the reading. Only that ": "
      advances the field number, and by one; committed coordinates change
      only at a terminator; the reader panics only with a field number
      outside 1 to 4, and it stops with a result only at a terminator:
      with the coordinates after field 4, or with the error of the field
      it could not parse. */
  function Step(s: Scanner, ch: char): (m: Move)
    ensures m.Next? ==> s.counter <= m.scanner.counter <= s.counter + 1
    ensures m.Next? && m.scanner.counter != s.counter ==> s.last == ':' && ch == ' '
    ensures m.Next? && !IsTerminator(ch) ==> m.scanner.out == s.out
    ensures m.Stop? && m.outcome.Panicked? ==> !(1 <= s.counter <= 4)
    ensures m.Stop? && m.outcome.Returned? ==> IsTerminator(ch) && 1 <= s.counter <= 4
    ensures m.Stop? && m.outcome.Returned? && m.outcome.value.Ok? ==> s.counter == 4
    ensures m.Stop? && m.outcome.Returned? && m.outcome.value.Err? ==>
              ParseU16(s.buff) == Err(m.outcome.value.error.kind)
  {
    if s.last == ':' && ch == ' ' then
      Next(s.(isWriting := true, counter := s.counter + 1))
    else if ch == ',' || ch == ')' then
      if !(1 <= s.counter <= 4) then Stop(Panicked)
      else match ParseU16(s.buff)
        case Err(kind) => Stop(Returned(Err(ParseError(kind))))
        case Ok(v) =>
          if s.counter == 4 then Stop(Returned(Ok(Commit(s.out, 4, v))))
          else Next(s.(out := Commit(s.out, s.counter, v), isWriting := false, buff := []))
    else if s.isWriting && !(1 <= s.counter <= 4) then Stop(Panicked)
    else Next(s.(buff := if s.isWriting then s.buff + [ch] else s.buff, last := ch))
  }

  /** Runs the reader over `text`; reaching the end of the text returns the
      coordinates committed so far, so a parse error needs a ',' or ')'
      somewhere in the text. */
  function Run(s: Scanner, text: string): (r: ParseOutcome)
    ensures r.Returned? && r.value.Err? ==> exists i :: 0 <= i < |text| && IsTerminator(text[i])
    decreases |text|
  {
    if text == [] then Returned(Ok(s.out))
    else match Step(s, text[0])
      case Stop(outcome) => outcome
      case Next(following) =>
        var r := Run(following, text[1..]);
        assert forall i :: 0 <= i < |text[1..]| ==> text[1..][i] == text[i + 1];
        r
  }

  /** Reading a whole coordinate string: a parse error is only ever
      reported at a ',' or ')' of the text. */
  function Parse(text: string): (r: ParseOutcome)
    ensures r.Returned? && r.value.Err? ==> exists i :: 0 <= i < |text| && IsTerminator(text[i])
  {
    Run(Start, text)
  }

  /** `TileCoords::parse_tile_coords_string`, the loop over the characters
      with its five variables, proved to compute `Parse`. */
  method ParseTileCoordsString(v: string) returns (r: ParseOutcome)
    ensures r == Parse(v)
  {
    var buff: string := [];
    var out := New(0, 0, 0, 0);
    var isWriting := false;
    var last := ' ';
    var counter: nat := 0;
    var i := 0;
    while i < |v|
      invariant 0 <= i <= |v|
      invariant Parse(v) == Run(Scanner(buff, out, isWriting, last, counter), v[i..])
    {
      var ch := v[i];
      assert v[i..][0] == ch && v[i..][1..] == v[i + 1..];
      if last == ':' && ch == ' ' {
        isWriting := true;
        counter := counter + 1;
        i := i + 1;
        continue;
      } else if ch == ',' || ch == ')' {
        if !(1 <= counter <= 4) {
          return Panicked;
        }
        var parsed := ParseU16(buff);
        if parsed.Err? {
          return Returned(Err(ParseError(parsed.error)));
        }
        if counter == 1 {
          out := out.(tileX := parsed.value);
        } else if counter == 2 {
          out := out.(tileY := parsed.value);
        } else if counter == 3 {
          out := out.(x := parsed.value);
        } else {
          out := out.(y := parsed.value);
          break;
        }
        isWriting := false;
        buff := [];
        i := i + 1;
        continue;
      }
      if isWriting {
        if 1 <= counter <= 4 {
          buff := buff + [ch];
        } else {
          return Panicked;
        }
      }
      last := ch;
      i := i + 1;
    }
    r := Returned(Ok(out));
  }

  // ---------------------------------------------------------------------
  // What the reader does with well-formed and malformed text
  // ---------------------------------------------------------------------

  /** Text with no ':', ',' or ')': a field name, or the digits of a field. */
  predicate PlainText(s: string)
  {
    forall i :: 0 <= i < |s| ==> s[i] != ':' && s[i] != ',' && s[i] != ')'
  }

  function LastOr(s: string, otherwise: char): char
  {
    if s == [] then otherwise else s[|s| - 1]
  }

  /** One labelled field as the canvas writes it: "name: value" and the
      character that ends it. */
  function Field(name: string, v: u16, term: char): string
  {
    name + ": " + Dec(v) + [term]
  }

  function Spaces(n: nat): string
  {
    seq(n, _ => ' ')
  }

  /** The reader between two fields: nothing buffered, not buffering, and
      `k` fields committed. */
  predicate Between(st: Scanner, k: nat)
  {
    st.buff == [] && !st.isWriting && st.last != ':' && st.counter == k
  }

  /** The reader on a text that starts with `ch` goes on as `Step` says. */
  lemma RunStep(st: Scanner, ch: char, rest: string)
    ensures Step(st, ch).Stop? ==> Run(st, [ch] + rest) == Step(st, ch).outcome
    ensures Step(st, ch).Next? ==> Run(st, [ch] + rest) == Run(Step(st, ch).scanner, rest)
  {
    assert ([ch] + rest)[0] == ch && ([ch] + rest)[1..] == rest;
  }

  /** Outside a field, plain text only moves the remembered character. */
  lemma {:induction false} RunSkipsLabel(st: Scanner, name: string, rest: string)
    requires !st.isWriting && st.last != ':' && PlainText(name)
    ensures Run(st, name + rest) == Run(st.(last := LastOr(name, st.last)), rest)
    decreases |name|
  {
    if name != [] {
      var c := name[0];
      assert c != ':' && c != ',' && c != ')';
      assert name + rest == [c] + (name[1..] + rest);
      assert Step(st, c) == Next(st.(last := c));
      RunStep(st, c, name[1..] + rest);
      assert PlainText(name[1..]) by {
        forall i | 0 <= i < |name| - 1 ensures name[1..][i] == name[i + 1] { }
      }
      RunSkipsLabel(st.(last := c), name[1..], rest);
      assert LastOr(name[1..], c) == LastOr(name, st.last);
    } else {
      assert name + rest == rest;
    }
  }

  /** Inside a field, plain text is appended to the buffer. */
  lemma {:induction false} RunBuffers(st: Scanner, w: string, rest: string)
    requires st.isWriting && 1 <= st.counter <= 4 && PlainText(w)
    requires w != [] && st.last == ':' ==> w[0] != ' '
    ensures Run(st, w + rest) == Run(st.(buff := st.buff + w, last := LastOr(w, st.last)), rest)
    decreases |w|
  {
    if w != [] {
      var c := w[0];
      assert c != ':' && c != ',' && c != ')';
      assert w + rest == [c] + (w[1..] + rest);
      var st' := st.(buff := st.buff + [c], last := c);
      assert Step(st, c) == Next(st');
      RunStep(st, c, w[1..] + rest);
      assert PlainText(w[1..]) by {
        forall i | 0 <= i < |w| - 1 ensures w[1..][i] == w[i + 1] { }
      }
      RunBuffers(st', w[1..], rest);
      assert st'.buff + w[1..] == st.buff + w;
      assert LastOr(w[1..], c) == LastOr(w, st.last);
    } else {
      assert w + rest == rest && st.buff + w == st.buff;
    }
  }

  /** Every space that follows a ':' opens one more field, even where the
      previous one is still empty: the ':' stays the remembered character. */
  lemma {:induction false} SpacesAfterColon(st: Scanner, n: nat, rest: string)
    requires st.last == ':'
    ensures Run(st, Spaces(n) + rest) ==
              Run(st.(isWriting := st.isWriting || n > 0, counter := st.counter + n), rest)
    decreases n
  {
    if n > 0 {
      assert Spaces(n) + rest == [' '] + (Spaces(n - 1) + rest);
      var st' := st.(isWriting := true, counter := st.counter + 1);
      assert Step(st, ' ') == Next(st');
      RunStep(st, ' ', Spaces(n - 1) + rest);
      SpacesAfterColon(st', n - 1, rest);
    } else {
      assert Spaces(n) + rest == rest;
    }
  }

  /** From between fields `k` and `k + 1`, a label and its ": " open
      field `k + 1` with an empty buffer. */
  lemma LabelOpensField(st: Scanner, k: nat, name: string, more: string)
    requires Between(st, k) && PlainText(name)
    ensures Run(st, name + ([':'] + ([' '] + more))) == Run(Scanner([], st.out, true, ':', k + 1), more)
  {
    RunSkipsLabel(st, name, [':'] + ([' '] + more));
    var st1 := st.(last := LastOr(name, st.last));
    var st2 := st1.(last := ':');
    assert Step(st1, ':') == Next(st2);
    RunStep(st1, ':', [' '] + more);
    assert Step(st2, ' ') == Next(st2.(isWriting := true, counter := k + 1));
    RunStep(st2, ' ', more);
  }

  /** From between fields `k` and `k + 1`, a label, its ": " and the
      field's text are read into the buffer of field `k + 1`. */
  lemma FieldBuffered(st: Scanner, k: nat, name: string, w: string, term: char, rest: string)
    requires Between(st, k) && k < 4
    requires PlainText(name) && PlainText(w) && (w != [] ==> w[0] != ' ') && IsTerminator(term)
    ensures Run(st, name + ": " + w + [term] + rest) ==
              Run(Scanner(w, st.out, true, LastOr(w, ':'), k + 1), [term] + rest)
  {
    assert name + ": " + w + [term] + rest == name + ([':'] + ([' '] + (w + ([term] + rest))));
    LabelOpensField(st, k, name, w + ([term] + rest));
    RunBuffers(Scanner([], st.out, true, ':', k + 1), w, [term] + rest);
    assert [] + w == w;
  }

  /** From between fields `k` and `k + 1`, a labelled field is parsed and
      committed to field `k + 1`, and the fourth field ends the reading;
      a field that does not parse ends the reading with its error. */
  lemma FieldStep(st: Scanner, k: nat, name: string, w: string, term: char, rest: string)
    requires Between(st, k) && k < 4
    requires PlainText(name) && PlainText(w) && (w != [] ==> w[0] != ' ') && IsTerminator(term)
    ensures Run(st, name + ": " + w + [term] + rest) ==
              match ParseU16(w)
              case Err(kind) => Returned(Err(ParseError(kind)))
              case Ok(v) =>
                if k == 3 then Returned(Ok(Commit(st.out, 4, v)))
                else Run(Scanner([], Commit(st.out, k + 1, v), false, LastOr(w, ':'), k + 1), rest)
  {
    FieldBuffered(st, k, name, w, term, rest);
    RunStep(Scanner(w, st.out, true, LastOr(w, ':'), k + 1), term, rest);
  }

  /** A labelled field whose value is written in decimal is committed to
      field `k + 1`; the fourth field ends the reading. */
  lemma FieldCommits(st: Scanner, k: nat, name: string, v: u16, term: char, rest: string)
    requires Between(st, k) && k < 4 && PlainText(name) && IsTerminator(term)
    ensures k == 3 ==> Run(st, Field(name, v, term) + rest) == Returned(Ok(Commit(st.out, 4, v)))
    ensures k < 3 ==> Run(st, Field(name, v, term) + rest) == Run(AfterField(st, k, v), rest)
    ensures Between(AfterField(st, k, v), k + 1)
  {
    ParseU16Dec(v);
    assert PlainText(Dec(v)) && Dec(v)[0] != ' ' by {
      forall i | 0 <= i < |Dec(v)| ensures IsDigit(Dec(v)[i]) { }
    }
    assert Field(name, v, term) + rest == name + ": " + Dec(v) + [term] + rest;
    FieldStep(st, k, name, Dec(v), term, rest);
    assert IsDigit(LastOr(Dec(v), ':'));
  }

  /** The reader just after a field written in decimal was committed. */
  function AfterField(st: Scanner, k: nat, v: u16): Scanner
    requires k < 4
  {
    Scanner([], Commit(st.out, k + 1, v), false, LastOr(Dec(v), ':'), k + 1)
  }

  /** A well-formed coordinate string is read back to the coordinates it
      was written from, whatever labels its fields carry and whatever text
      follows the fourth field. */
  lemma ParseReadsFourFields(c: TileCoords, l1: string, l2: string, l3: string, l4: string,
                             t1: char, t2: char, t3: char, t4: char, rest: string)
    requires PlainText(l1) && PlainText(l2) && PlainText(l3) && PlainText(l4)
    requires IsTerminator(t1) && IsTerminator(t2) && IsTerminator(t3) && IsTerminator(t4)
    ensures Parse(Field(l1, c.tileX, t1) + Field(l2, c.tileY, t2) + Field(l3, c.x, t3)
                  + Field(l4, c.y, t4) + rest) == Returned(Ok(c))
  {
    var f1, f2, f3, f4 := Field(l1, c.tileX, t1), Field(l2, c.tileY, t2), Field(l3, c.x, t3), Field(l4, c.y, t4);
    assert f1 + f2 + f3 + f4 + rest == f1 + (f2 + (f3 + (f4 + rest)));
    FieldCommits(Start, 0, l1, c.tileX, t1, f2 + (f3 + (f4 + rest)));
    var s1 := AfterField(Start, 0, c.tileX);
    FieldCommits(s1, 1, l2, c.tileY, t2, f3 + (f4 + rest));
    var s2 := AfterField(s1, 1, c.tileY);
    FieldCommits(s2, 2, l3, c.x, t3, f4 + rest);
    var s3 := AfterField(s2, 2, c.x);
    FieldCommits(s3, 3, l4, c.y, t4, rest);
  }

  /** A field that the text ends in, before its terminator, is dropped:
      the coordinates committed so far are returned and the rest keep 0. */
  lemma UnterminatedFieldIsDropped(c: TileCoords, l1: string, l2: string, l3: string, l4: string)
    requires PlainText(l1) && PlainText(l2) && PlainText(l3) && PlainText(l4)
    ensures Parse(Field(l1, c.tileX, ',') + Field(l2, c.tileY, ',') + Field(l3, c.x, ',')
                  + l4 + ": " + Dec(c.y)) == Returned(Ok(c.(y := 0)))
  {
    var f1, f2, f3 := Field(l1, c.tileX, ','), Field(l2, c.tileY, ','), Field(l3, c.x, ',');
    var tail := l4 + ([':'] + ([' '] + (Dec(c.y) + [])));
    assert f1 + f2 + f3 + l4 + ": " + Dec(c.y) == f1 + (f2 + (f3 + tail));
    FieldCommits(Start, 0, l1, c.tileX, ',', f2 + (f3 + tail));
    var s1 := AfterField(Start, 0, c.tileX);
    FieldCommits(s1, 1, l2, c.tileY, ',', f3 + tail);
    var s2 := AfterField(s1, 1, c.tileY);
    FieldCommits(s2, 2, l3, c.x, ',', tail);
    var s3 := AfterField(s2, 2, c.x);
    RunSkipsLabel(s3, l4, [':'] + ([' '] + (Dec(c.y) + [])));
    var s4 := s3.(last := LastOr(l4, s3.last));
    assert Step(s4, ':') == Next(s4.(last := ':'));
    RunStep(s4, ':', [' '] + (Dec(c.y) + []));
    var s5 := s4.(last := ':', isWriting := true, counter := 4);
    assert Step(s4.(last := ':'), ' ') == Next(s5);
    RunStep(s4.(last := ':'), ' ', Dec(c.y) + []);
    assert PlainText(Dec(c.y)) && Dec(c.y)[0] != ' ' by {
      forall i | 0 <= i < |Dec(c.y)| ensures IsDigit(Dec(c.y)[i]) { }
    }
    RunBuffers(s5, Dec(c.y), []);
  }

  /** The character the reader remembers before position `j` of `text`,
      as long as no ": " occurred before. */
  function Before(last: char, text: string, j: nat): char
    requires j <= |text|
  {
    if j == 0 then last else text[j - 1]
  }

  /** A ',' or ')' met before any ": " has opened a field reaches the
      reader's `unreachable!()` arm. */
  lemma {:induction false} RunPanicsOnUnopenedField(st: Scanner, text: string, k: nat)
    requires st.counter == 0 && !st.isWriting
    requires k < |text| && IsTerminator(text[k])
    requires forall j :: 0 <= j <= k ==> !(Before(st.last, text, j) == ':' && text[j] == ' ')
    ensures Run(st, text) == Panicked
    decreases k
  {
    assert !(st.last == ':' && text[0] == ' ') by { assert Before(st.last, text, 0) == st.last; }
    if k > 0 {
      var st' := st.(last := text[0]);
      forall j | 0 <= j <= k - 1
        ensures !(Before(st'.last, text[1..], j) == ':' && text[1..][j] == ' ')
      {
        assert Before(st'.last, text[1..], j) == Before(st.last, text, j + 1);
        assert text[1..][j] == text[j + 1];
      }
      RunPanicsOnUnopenedField(st', text[1..], k - 1);
    }
  }

  lemma ParsePanicsOnUnopenedField(text: string, k: nat)
    requires k < |text| && IsTerminator(text[k])
    requires forall j :: 0 < j <= k ==> !(text[j - 1] == ':' && text[j] == ' ')
    ensures Parse(text) == Panicked
  {
    forall j | 0 <= j <= k
      ensures !(Before(Start.last, text, j) == ':' && text[j] == ' ')
    {
      if j > 0 { assert Before(Start.last, text, j) == text[j - 1]; }
    }
    RunPanicsOnUnopenedField(Start, text, k);
  }

  // ---------------------------------------------------------------------
  // Examples
  // ---------------------------------------------------------------------

  lemma ExampleFields()
    ensures Field("(tile_x", 12, ',') == "(tile_x: 12,"
    ensures Field(" y", 999, ')') == " y: 999)"
  {
    assert Dec(12) == "12" by { assert Dec(1) == "1"; }
    assert Dec(999) == "999" by { assert Dec(9) == "9"; assert Dec(99) == "99"; }
  }

  lemma ExampleSplits()
    ensures "(tile_x: 12, tile_y: 7, x: 0, y: 999)" ==
              "(tile_x: 12," + " tile_y: 7," + " x: 0," + " y: 999)" + ""
  {
  }

  /** The canvas's own format. */
  lemma ParseExample()
    ensures Parse("(tile_x: 12, tile_y: 7, x: 0, y: 999)") == Returned(Ok(TileCoords(12, 7, 0, 999)))
  {
    ExampleFields();
    ExampleSplits();
    assert Field(" tile_y", 7, ',') == " tile_y: 7,";
    assert Field(" x", 0, ',') == " x: 0,";
    ParseReadsFourFields(TileCoords(12, 7, 0, 999), "(tile_x", " tile_y", " x", " y", ',', ',', ',', ')', "");
  }

  /** A committed field that is not a decimal u16 ends the reading with
      the parse error. */
  lemma ParseFieldErrors()
    ensures Parse("(tile_x: 12 ,") == Returned(Err(ParseError(InvalidDigit)))
    ensures Parse("(tile_x: ,") == Returned(Err(ParseError(Empty)))
    ensures Parse("(tile_x: 65536)") == Returned(Err(ParseError(PosOverflow)))
  {
    TrailingSpaceFails();
    EmptyFieldFails();
    OverflowFails();
  }

  /** A space inside a field is an invalid digit. */
  lemma TrailingSpaceFails()
    ensures Parse("(tile_x: 12 ,") == Returned(Err(ParseError(InvalidDigit)))
  {
    assert ParseDigits(12, " ") == Err(InvalidDigit);
    assert "12 "[1..] == "2 " && "2 "[1..] == " ";
    assert ParseU16("12 ") == Err(InvalidDigit);
    FieldErrorExample("12 ", ',');
    assert "(tile_x: " + "12 " + [','] == "(tile_x: 12 ,";
  }

  /** A field with nothing before its terminator is empty. */
  lemma EmptyFieldFails()
    ensures Parse("(tile_x: ,") == Returned(Err(ParseError(Empty)))
  {
    FieldErrorExample("", ',');
    assert "(tile_x: " + "" + [','] == "(tile_x: ,";
  }

  /** 65536 does not fit 16 bits. */
  lemma OverflowFails()
    ensures Parse("(tile_x: 65536)") == Returned(Err(ParseError(PosOverflow)))
  {
    assert ParseDigits(6553, "6") == Err(PosOverflow);
    assert "65536"[1..] == "5536" && "5536"[1..] == "536" && "536"[1..] == "36" && "36"[1..] == "6";
    assert ParseU16("65536") == Err(PosOverflow);
    FieldErrorExample("65536", ')');
    assert "(tile_x: " + "65536" + [')'] == "(tile_x: 65536)";
  }

  /** A first field `w` ended by `term` is reported with `w`'s own parse
      error. */
  lemma FieldErrorExample(w: string, term: char)
    requires PlainText(w) && (w != [] ==> w[0] != ' ') && IsTerminator(term) && ParseU16(w).Err?
    ensures Parse("(tile_x: " + w + [term]) == Returned(Err(ParseError(ParseU16(w).error)))
  {
    assert "(tile_x: " + w + [term] == "(tile_x" + ": " + w + [term] + "";
    FieldStep(Start, 0, "(tile_x", w, term, "");
  }

  /** Bare numbers, and labels without a space after the ':', panic. */
  lemma ParseUnlabelledPanics()
    ensures Parse("12,7,0,999") == Panicked
    ensures Parse("(a:1,b:2,c:3,d:4)") == Panicked
  {
    ParsePanicsOnUnopenedField("12,7,0,999", 2);
    ParsePanicsOnUnopenedField("(a:1,b:2,c:3,d:4)", 4);
  }

  /** Two spaces after the first ':' put the value into tile_y. */
  lemma ParseDoubleSpaceShiftsField()
    ensures Parse("(x:  5)") == Returned(Ok(TileCoords(0, 5, 0, 0)))
  {
    assert "(x:  5)" == "(x" + ([':'] + (Spaces(2) + ['5', ')']));
    RunSkipsLabel(Start, "(x", [':'] + (Spaces(2) + ['5', ')']));
    var s1 := Start.(last := 'x');
    var s2 := s1.(last := ':');
    assert Step(s1, ':') == Next(s2);
    RunStep(s1, ':', Spaces(2) + ['5', ')']);
    SpacesAfterColon(s2, 2, ['5', ')']);
    var s3 := s2.(isWriting := true, counter := 2);
    var s4 := s3.(buff := ['5'], last := '5');
    assert Step(s3, '5') == Next(s4);
    RunStep(s3, '5', [')']);
    assert ParseU16(['5']) == Ok(5);
    assert Step(s4, ')') == Next(s4.(out := TileCoords(0, 5, 0, 0), isWriting := false, buff := []));
    RunStep(s4, ')', []);
  }
}
