/** mcp_gateway.py: `_pointer_value`, measured against section 4 of RFC 6901. */
module JsonPointer {
  import opened Sequences
  import opened Json

  // The decimal digits str.isdecimal knows and int() reads: all of Unicode's, not only 0 to 9.
  type DigitTable = char -> Option<nat>

  ghost predicate IsDigitTable(digit: DigitTable) {
    && (forall c :: '0' <= c <= '9' ==> digit(c) == Some((c - '0') as nat))
    && (forall c :: digit(c).Some? ==> digit(c).value < 10)
  }

  ghost predicate OnlyAscii(digit: DigitTable) { forall c :: digit(c).Some? ==> '0' <= c <= '9' }

  // str.replace of "~" followed by `mark` with `plain`: left to right, not overlapping.
  function ReplaceTilde(s: string, mark: char, plain: char): string {
    if s == "" then ""
    else if |s| >= 2 && s[0] == '~' && s[1] == mark then [plain] + ReplaceTilde(s[2..], mark, plain)
    else [s[0]] + ReplaceTilde(s[1..], mark, plain)
  }

  function Unescape(segment: string): string { ReplaceTilde(ReplaceTilde(segment, '1', '/'), '0', '~') }

  function ValueOf(digit: DigitTable, key: string): nat {
    if key == "" then 0
    else
      var last := digit(key[|key| - 1]);
      ValueOf(digit, key[..|key| - 1]) * 10 + (if last.Some? then last.value else 0)
  }

  predicate IsDecimal(digit: DigitTable, key: string) {
    key != "" && forall i :: 0 <= i < |key| ==> digit(key[i]).Some?
  }

  // One step of the evaluation; None is a KeyError, IndexError or ValueError.
  function Descend(digit: DigitTable, value: Json, key: string): Option<Json> {
    match value
    case JObj(fields) => if key in fields then Some(fields[key]) else None
    case JArr(items) =>
      if IsDecimal(digit, key) && (key == "0" || key[0] != '0') && ValueOf(digit, key) < |items|
      then Some(items[ValueOf(digit, key)]) else None
    case _ => None
  }

  function Evaluate(digit: DigitTable, value: Json, segments: seq<string>): Option<Json> {
    if segments == [] then Some(value)
    else
      var next :- Descend(digit, value, Unescape(segments[0]));
      Evaluate(digit, next, segments[1..])
  }

  function Segments(pointer: string): seq<string> { Split(if pointer == "" then "" else pointer[1..], '/') }

  method PointerValue(digit: DigitTable, arguments: Json, pointer: string) returns (r: Option<Json>)
    ensures r == Evaluate(digit, arguments, Segments(pointer))
  {
    var value := arguments;
    var segments := Segments(pointer);
    for i := 0 to |segments|
      invariant Evaluate(digit, value, segments[i..]) == Evaluate(digit, arguments, segments)
    {
      var key := Unescape(segments[i]);
      if value.JObj? {
        if key !in value.fields {
          return None;
        }
        value := value.fields[key];
      } else if value.JArr? && IsDecimal(digit, key) && (key == "0" || key[0] != '0') {
        var index := ValueOf(digit, key);
        if index >= |value.items| {
          return None;
        }
        value := value.items[index];
      } else {
        return None;
      }
    }
    return Some(value);
  }

  // ----- RFC 6901 -----

  // Section 3: "~" is written "~0" and "/" is written "~1".
  function Escape(key: string): string {
    if key == "" then ""
    else (if key[0] == '~' then "~0" else if key[0] == '/' then "~1" else [key[0]]) + Escape(key[1..])
  }

  function EscapeAll(tokens: seq<string>): (out: seq<string>)
    ensures |out| == |tokens| && forall i :: 0 <= i < |tokens| ==> out[i] == Escape(tokens[i])
  {
    seq(|tokens|, i requires 0 <= i < |tokens| => Escape(tokens[i]))
  }

  function Pointer(tokens: seq<string>): string
    requires tokens != []
  {
    "/" + Join(EscapeAll(tokens), '/')
  }

  // Section 4: an array index is "0" or digits without a leading zero.
  predicate IsArrayIndex(token: string) {
    token != "" && (forall i :: 0 <= i < |token| ==> '0' <= token[i] <= '9') && (token == "0" || token[0] != '0')
  }

  function AsciiValue(token: string): nat
    requires forall i :: 0 <= i < |token| ==> '0' <= token[i] <= '9'
  {
    if token == "" then 0 else AsciiValue(token[..|token| - 1]) * 10 + (token[|token| - 1] - '0') as nat
  }

  // Section 4: the value a sequence of decoded reference tokens points at.
  function Referenced(value: Json, tokens: seq<string>): Option<Json>
    decreases |tokens|
  {
    if tokens == [] then Some(value)
    else
      match value
      case JObj(fields) => if tokens[0] in fields then Referenced(fields[tokens[0]], tokens[1..]) else None
      case JArr(items) =>
        if IsArrayIndex(tokens[0]) && AsciiValue(tokens[0]) < |items|
        then Referenced(items[AsciiValue(tokens[0])], tokens[1..]) else None
      case _ => None
  }

  // ----- Unescaping undoes escaping, in the order the code replaces -----

  function HalfEscape(key: string): string {
    if key == "" then "" else (if key[0] == '~' then "~0" else [key[0]]) + HalfEscape(key[1..])
  }

  lemma {:induction false} SlashesFirst(key: string)
    ensures ReplaceTilde(Escape(key), '1', '/') == HalfEscape(key)
  {
    if key != "" {
      SlashesFirst(key[1..]);
      var rest := Escape(key[1..]);
      if key[0] == '~' {
        assert Escape(key) == ['~'] + (['0'] + rest);
        assert (['~'] + (['0'] + rest))[1..] == ['0'] + rest && (['0'] + rest)[1..] == rest;
        assert ReplaceTilde(['0'] + rest, '1', '/') == ['0'] + HalfEscape(key[1..]);
        assert ['~'] + (['0'] + HalfEscape(key[1..])) == "~0" + HalfEscape(key[1..]);
      } else if key[0] == '/' {
        assert Escape(key)[2..] == rest;
      } else {
        assert Escape(key)[1..] == rest;
      }
    }
  }

  lemma {:induction false} TildesSecond(key: string)
    ensures ReplaceTilde(HalfEscape(key), '0', '~') == key
  {
    if key != "" {
      TildesSecond(key[1..]);
      var rest := HalfEscape(key[1..]);
      if key[0] == '~' {
        assert HalfEscape(key)[2..] == rest;
      } else {
        assert HalfEscape(key)[1..] == rest;
      }
      assert [key[0]] + key[1..] == key;
    }
  }

  lemma UnescapeInvertsEscape(key: string)
    ensures Unescape(Escape(key)) == key
  {
    SlashesFirst(key);
    TildesSecond(key);
  }

  lemma {:induction false} EscapedHasNoSlash(key: string)
    ensures '/' !in Escape(key)
  {
    if key != "" {
      EscapedHasNoSlash(key[1..]);
    }
  }

  lemma PointerSegments(tokens: seq<string>)
    requires tokens != []
    ensures Segments(Pointer(tokens)) == EscapeAll(tokens)
  {
    forall i | 0 <= i < |tokens| ensures '/' !in EscapeAll(tokens)[i] {
      EscapedHasNoSlash(tokens[i]);
    }
    SplitInvertsJoin(EscapeAll(tokens), '/');
    assert Pointer(tokens)[1..] == Join(EscapeAll(tokens), '/');
  }

  // ----- Evaluation against the RFC -----

  lemma {:induction false} AsciiAgrees(digit: DigitTable, token: string)
    requires IsDigitTable(digit)
    requires forall i :: 0 <= i < |token| ==> '0' <= token[i] <= '9'
    ensures ValueOf(digit, token) == AsciiValue(token)
  {
    if token != "" {
      AsciiAgrees(digit, token[..|token| - 1]);
    }
  }

  // A token the code takes for an array index and the RFC does not: decimal digits, no leading "0",
  // and some digit that is not one of 0 to 9.
  predicate Foreign(digit: DigitTable, token: string) {
    IsDecimal(digit, token) && token[0] != '0' && !IsArrayIndex(token)
  }

  predicate NoForeign(digit: DigitTable, tokens: seq<string>) {
    forall i :: 0 <= i < |tokens| ==> !Foreign(digit, tokens[i])
  }

  function Decoded(segments: seq<string>): (tokens: seq<string>)
    ensures |tokens| == |segments| && forall i :: 0 <= i < |segments| ==> tokens[i] == Unescape(segments[i])
  {
    seq(|segments|, i requires 0 <= i < |segments| => Unescape(segments[i]))
  }

  lemma DescendAgrees(digit: DigitTable, value: Json, token: string)
    requires IsDigitTable(digit)
    ensures Referenced(value, [token]).Some? ==> Descend(digit, value, token) == Referenced(value, [token])
    ensures !Foreign(digit, token) ==> Descend(digit, value, token) == Referenced(value, [token])
  {
    assert [token][1..] == [];
    if value.JArr? && IsArrayIndex(token) {
      AsciiAgrees(digit, token);
    }
  }

  lemma ReferencedStep(value: Json, tokens: seq<string>)
    requires tokens != []
    ensures var next := Referenced(value, [tokens[0]]);
            Referenced(value, tokens) == if next.Some? then Referenced(next.value, tokens[1..]) else None
  {
    assert [tokens[0]][1..] == [];
  }

  lemma {:induction false} EvaluateAgrees(digit: DigitTable, value: Json, segments: seq<string>)
    requires IsDigitTable(digit)
    ensures var tokens := Decoded(segments);
            Referenced(value, tokens).Some? || NoForeign(digit, tokens)
            ==> Evaluate(digit, value, segments) == Referenced(value, tokens)
    decreases |segments|
  {
    var tokens := Decoded(segments);
    if segments != [] {
      DescendAgrees(digit, value, tokens[0]);
      ReferencedStep(value, tokens);
      assert tokens[1..] == Decoded(segments[1..]);
      var next := Descend(digit, value, tokens[0]);
      if next.Some? {
        EvaluateAgrees(digit, next.value, segments[1..]);
      }
    }
  }

  lemma DecodedPointer(tokens: seq<string>)
    requires tokens != []
    ensures Decoded(Segments(Pointer(tokens))) == tokens
  {
    PointerSegments(tokens);
    forall i | 0 <= i < |tokens| ensures Unescape(Escape(tokens[i])) == tokens[i] {
      UnescapeInvertsEscape(tokens[i]);
    }
  }

  // Any non-empty sequence of tokens, escaped into a pointer, evaluates to the value RFC 6901 says it
  // references, whenever it references one.
  lemma PointerFindsReferenced(digit: DigitTable, value: Json, tokens: seq<string>)
    requires IsDigitTable(digit) && tokens != [] && Referenced(value, tokens).Some?
    ensures Evaluate(digit, value, Segments(Pointer(tokens))) == Referenced(value, tokens)
  {
    DecodedPointer(tokens);
    EvaluateAgrees(digit, value, Segments(Pointer(tokens)));
  }

  // A value with something at the end of the path the code takes: an array at every foreign token.
  function Trap(digit: DigitTable, tokens: seq<string>): Json
    decreases |tokens|
  {
    if tokens == [] then JNull
    else
      var rest := Trap(digit, tokens[1..]);
      if Foreign(digit, tokens[0]) then JArr(seq(ValueOf(digit, tokens[0]) + 1, _ => rest))
      else JObj(map[tokens[0] := rest])
  }

  lemma {:induction false} TrapEvaluates(digit: DigitTable, segments: seq<string>)
    ensures Evaluate(digit, Trap(digit, Decoded(segments)), segments) == Some(JNull)
    decreases |segments|
  {
    if segments != [] {
      TrapEvaluates(digit, segments[1..]);
      assert Decoded(segments)[1..] == Decoded(segments[1..]);
    }
  }

  lemma {:induction false} TrapRefersToNothing(digit: DigitTable, tokens: seq<string>)
    requires !NoForeign(digit, tokens)
    ensures Referenced(Trap(digit, tokens), tokens) == None
    decreases |tokens|
  {
    if !Foreign(digit, tokens[0]) {
      var i :| 0 <= i < |tokens| && Foreign(digit, tokens[i]);
      assert Foreign(digit, tokens[1..][i - 1]);
      TrapRefersToNothing(digit, tokens[1..]);
    }
  }

  // Evaluating the pointer gives what these tokens reference, in every value, errors included.
  ghost predicate AgreesOn(digit: DigitTable, pointer: string, tokens: seq<string>) {
    forall value :: Evaluate(digit, value, Segments(pointer)) == Referenced(value, tokens)
  }

  // What the evaluation makes of the tokens of any text: it agrees with the RFC's reading of those
  // tokens, errors included, if and only if none is a number written with digits other than 0 to 9.
  lemma SegmentsExact(digit: DigitTable, text: string)
    requires IsDigitTable(digit)
    ensures AgreesOn(digit, text, Decoded(Segments(text)))
            <==> NoForeign(digit, Decoded(Segments(text)))
  {
    var segments := Segments(text);
    forall value | NoForeign(digit, Decoded(segments))
      ensures Evaluate(digit, value, segments) == Referenced(value, Decoded(segments))
    {
      EvaluateAgrees(digit, value, segments);
    }
    if !NoForeign(digit, Decoded(segments)) {
      var trap := Trap(digit, Decoded(segments));
      TrapEvaluates(digit, segments);
      TrapRefersToNothing(digit, Decoded(segments));
      assert Evaluate(digit, trap, segments) != Referenced(trap, Decoded(segments));
    }
  }

  // Section 3: a pointer is empty or starts with "/", and every "~" is followed by "0" or "1".
  predicate IsPointer(text: string) {
    && (text == "" || text[0] == '/')
    && forall i :: 0 <= i < |text| && text[i] == '~' ==> i + 1 < |text| && text[i + 1] in {'0', '1'}
  }

  // Sections 3 to 5 and 7: None is an error, "" is the whole document.
  function Rfc(text: string, value: Json): Option<Json> {
    if !IsPointer(text) then None
    else if text == "" then Some(value)
    else Referenced(value, RfcTokens(text[1..]))
  }

  // Section 4: "~1" stands for "/" and "~0" for "~", here decoded in one pass from the left, so that
  // nothing decoded is decoded again.
  function DecodeToken(token: string): string {
    if token == "" then ""
    else if |token| >= 2 && token[0] == '~' && token[1] == '1' then "/" + DecodeToken(token[2..])
    else if |token| >= 2 && token[0] == '~' && token[1] == '0' then "~" + DecodeToken(token[2..])
    else [token[0]] + DecodeToken(token[1..])
  }

  function RfcTokens(text: string): (tokens: seq<string>)
    ensures |tokens| == |Split(text, '/')|
    ensures forall i :: 0 <= i < |tokens| ==> tokens[i] == DecodeToken(Split(text, '/')[i])
  {
    var parts := Split(text, '/');
    seq(|parts|, i requires 0 <= i < |parts| => DecodeToken(parts[i]))
  }

  // Replacing "~1" everywhere and then "~0" everywhere is decoding in one pass: the first replacement
  // makes no new "~".
  lemma {:induction false} TwoPassesAreOne(token: string)
    ensures Unescape(token) == DecodeToken(token)
    decreases |token|
  {
    if token != "" {
      var first := ReplaceTilde(token, '1', '/');
      if |token| >= 2 && token[0] == '~' && token[1] == '1' {
        TwoPassesAreOne(token[2..]);
        assert first[1..] == ReplaceTilde(token[2..], '1', '/');
      } else if |token| >= 2 && token[0] == '~' && token[1] == '0' {
        TwoPassesAreOne(token[2..]);
        assert token[1..][1..] == token[2..];
        assert ReplaceTilde(token[1..], '1', '/') == ['0'] + ReplaceTilde(token[2..], '1', '/');
        assert first == ['~'] + (['0'] + ReplaceTilde(token[2..], '1', '/'));
        assert first[2..] == ReplaceTilde(token[2..], '1', '/');
      } else {
        TwoPassesAreOne(token[1..]);
        assert first[1..] == ReplaceTilde(token[1..], '1', '/');
        NoZeroAppears(token);
      }
    }
  }

  // A "~" before something that is not a mark stays before something that is not "0".
  lemma NoZeroAppears(token: string)
    requires token != "" && !(|token| >= 2 && token[0] == '~' && token[1] in {'0', '1'})
    ensures var first := ReplaceTilde(token, '1', '/');
            first[0] == token[0] && !(|first| >= 2 && first[0] == '~' && first[1] == '0')
  {
  }

  // For every text: the code agrees with the RFC on all values if and only if the text is a non-empty
  // pointer none of whose tokens is a number written with digits other than 0 to 9. The configuration
  // admits only non-empty pointers.
  lemma PointerExact(digit: DigitTable, text: string)
    requires IsDigitTable(digit)
    ensures (forall value :: Evaluate(digit, value, Segments(text)) == Rfc(text, value))
            <==> text != "" && IsPointer(text) && NoForeign(digit, RfcTokens(text[1..]))
  {
    var tokens := Decoded(Segments(text));
    SegmentsExact(digit, text);
    if text == "" {
      assert Evaluate(digit, JNull, Segments(text)) == None;
    } else {
      DecodedIsRfc(text);
      if !IsPointer(text) {
        TrapEvaluates(digit, Segments(text));
        assert Evaluate(digit, Trap(digit, tokens), Segments(text)) != Rfc(text, Trap(digit, tokens));
      }
      if AgreesOn(digit, text, tokens) && IsPointer(text) {
        forall value ensures Evaluate(digit, value, Segments(text)) == Rfc(text, value) {
        }
      }
      if !AgreesOn(digit, text, tokens) && IsPointer(text) {
        var value :| Evaluate(digit, value, Segments(text)) != Referenced(value, tokens);
        assert Evaluate(digit, value, Segments(text)) != Rfc(text, value);
      }
    }
  }

  lemma DecodedIsRfc(text: string)
    requires text != ""
    ensures Decoded(Segments(text)) == RfcTokens(text[1..])
  {
    var segments := Split(text[1..], '/');
    forall i | 0 <= i < |segments| ensures Unescape(segments[i]) == DecodeToken(segments[i]) {
      TwoPassesAreOne(segments[i]);
    }
  }

  ghost predicate MeetsRfc(digit: DigitTable) {
    forall tokens: seq<string> :: tokens != [] ==> AgreesOn(digit, Pointer(tokens), tokens)
  }

  // The same for a pointer made of given tokens.
  lemma TokensExact(digit: DigitTable, tokens: seq<string>)
    requires IsDigitTable(digit) && tokens != []
    ensures AgreesOn(digit, Pointer(tokens), tokens) <==> NoForeign(digit, tokens)
  {
    DecodedPointer(tokens);
    SegmentsExact(digit, Pointer(tokens));
  }

  // So the evaluator as a whole meets the RFC exactly when isdecimal accepts no digit but 0 to 9.
  lemma RfcExact(digit: DigitTable)
    requires IsDigitTable(digit)
    ensures MeetsRfc(digit) <==> OnlyAscii(digit)
  {
    forall tokens: seq<string> | tokens != [] && OnlyAscii(digit)
      ensures AgreesOn(digit, Pointer(tokens), tokens)
    {
      TokensExact(digit, tokens);
    }
    if !OnlyAscii(digit) {
      var c :| digit(c).Some? && !('0' <= c <= '9');
      assert Foreign(digit, [[c]][0]);
      TokensExact(digit, [[c]]);
    }
  }

  // A digit of another script indexes an array where the RFC refers to nothing.
  lemma ForeignDigit(digit: DigitTable, c: char)
    requires IsDigitTable(digit) && digit(c).Some? && !('0' <= c <= '9')
    ensures var ten := JArr(seq(10, _ => JNull));
            && Evaluate(digit, ten, Segments(Pointer([[c]]))) == Some(JNull)
            && Referenced(ten, [[c]]) == None
  {
    var ten := JArr(seq(10, _ => JNull));
    PointerSegments([[c]]);
    UnescapeInvertsEscape([c]);
    assert EscapeAll([[c]])[1..] == [];
    assert [c][..0] == "" && ValueOf(digit, "") == 0;
    assert ValueOf(digit, [c]) == digit(c).value;
    assert Descend(digit, ten, [c]) == Some(JNull);
  }

  // ----- Paths of keys and indexes -----

  datatype PathStep = Key(key: string) | Index(index: nat)

  function At(value: Json, path: seq<PathStep>): Option<Json>
    decreases |path|
  {
    if path == [] then Some(value)
    else
      match (path[0], value)
      case (Key(key), JObj(fields)) => if key in fields then At(fields[key], path[1..]) else None
      case (Index(index), JArr(items)) => if index < |items| then At(items[index], path[1..]) else None
      case _ => None
  }

  // str(index)
  function Decimal(n: nat): string {
    if n < 10 then [('0' as int + n) as char] else Decimal(n / 10) + [('0' as int + n % 10) as char]
  }

  function Token(step: PathStep): string { match step case Key(key) => key case Index(index) => Decimal(index) }

  function Tokens(path: seq<PathStep>): (tokens: seq<string>)
    ensures |tokens| == |path| && forall i :: 0 <= i < |path| ==> tokens[i] == Token(path[i])
  {
    seq(|path|, i requires 0 <= i < |path| => Token(path[i]))
  }

  lemma {:induction false} DecimalReadsBack(n: nat)
    ensures IsArrayIndex(Decimal(n)) && AsciiValue(Decimal(n)) == n && (n > 0 ==> Decimal(n)[0] != '0')
  {
    if n >= 10 {
      DecimalReadsBack(n / 10);
      var d := Decimal(n);
      assert d[..|d| - 1] == Decimal(n / 10);
    } else {
      assert Decimal(n)[..0] == "";
    }
  }

  lemma {:induction false} PathReferenced(value: Json, path: seq<PathStep>)
    requires At(value, path).Some?
    ensures Referenced(value, Tokens(path)) == At(value, path)
    decreases |path|
  {
    if path != [] {
      assert Tokens(path)[1..] == Tokens(path[1..]);
      match path[0] {
        case Key(key) => PathReferenced(value.fields[key], path[1..]);
        case Index(index) =>
          DecimalReadsBack(index);
          PathReferenced(value.items[index], path[1..]);
      }
    }
  }

  // Escaping any non-empty path into a pointer and evaluating it returns the value at that path.
  lemma PathRoundTrip(digit: DigitTable, value: Json, path: seq<PathStep>)
    requires IsDigitTable(digit) && path != [] && At(value, path).Some?
    ensures Evaluate(digit, value, Segments(Pointer(Tokens(path)))) == At(value, path)
  {
    PathReferenced(value, path);
    PointerFindsReferenced(digit, value, Tokens(path));
  }
}
