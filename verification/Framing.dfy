/** The line-framed file service: server side and client side (client_server/network.cpp, client.cpp). */
module Framing {
  import opened Segments

  datatype Option<T> = None | Some(value: T)

  /** The text of a C string: everything before its first NUL. */
  function Text(b: string): string {
    b[..StrLen(b)]
  }

  lemma PlainText(b: string)
    ensures Text(b) == b <==> NUL !in b
  {
    if NUL !in b {
      StrLenUnique(b, |b|);
    } else {
      var i :| 0 <= i < |b| && b[i] == NUL;
      assert StrLen(b) <= i;
    }
  }

  // ----- lines -----

  const EOL := "\r\n"

  /** recv_line's scan from index i with m bytes of the line end matched: one past the '\n' that ends the line. */
  function Scan(s: string, i: nat, m: nat): Option<nat>
    requires i <= |s| && m < 2
    decreases |s| - i
  {
    if i == |s| then None
    else if s[i] == EOL[m] then (if m == 1 then Some(i + 1) else Scan(s, i + 1, 1))
    else Scan(s, i + 1, 0)
  }

  /** How many '\r' stand directly before index i. */
  function CrRun(s: string, i: nat): nat
    requires i <= |s|
  {
    if i == 0 || s[i - 1] != '\r' then 0 else 1 + CrRun(s, i - 1)
  }

  predicate EndsLine(s: string, k: nat) {
    1 <= k <= |s| && s[k - 1] == '\n' && CrRun(s, k - 1) % 2 == 1
  }

  lemma {:induction false} ScanFindsFrom(s: string, i: nat, k: nat)
    requires i <= |s|
    ensures Scan(s, i, CrRun(s, i) % 2) == Some(k)
            <==> i < k && EndsLine(s, k) && forall j :: i < j < k ==> !EndsLine(s, j)
    decreases |s| - i
  {
    if i < |s| {
      ScanFindsFrom(s, i + 1, k);
      assert CrRun(s, i + 1) == if s[i] == '\r' then CrRun(s, i) + 1 else 0;
      if EndsLine(s, i + 1) {
        assert Scan(s, i, 1) == Some(i + 1);
      } else {
        assert Scan(s, i, CrRun(s, i) % 2) == Scan(s, i + 1, CrRun(s, i + 1) % 2);
      }
    }
  }

  /** A line ends at exactly the first '\n' that follows an odd number of '\r'. */
  lemma LineEnd(s: string, k: nat)
    ensures Scan(s, 0, 0) == Some(k) <==> EndsLine(s, k) && forall j :: 0 < j < k ==> !EndsLine(s, j)
  {
    ScanFindsFrom(s, 0, k);
  }

  lemma ScanStep(s: string, i: nat, m: nat)
    requires i <= |s| && m < 2
    ensures Scan(s, i, m) ==
            if i == |s| then None
            else if s[i] != EOL[m] then Scan(s, i + 1, 0)
            else if m == 1 then Some(i + 1) else Scan(s, i + 1, 1)
  {
  }

  /** A line end is two bytes long. */
  lemma LineEndFits(s: string, k: nat)
    requires Scan(s, 0, 0) == Some(k)
    ensures 2 <= k <= |s|
  {
    LineEnd(s, k);
  }

  predicate CrLfAt(s: string, k: nat) {
    2 <= k <= |s| && s[k - 2] == '\r' && s[k - 1] == '\n'
  }

  lemma EndsWithCrLf(s: string, k: nat)
    ensures EndsLine(s, k) ==> CrLfAt(s, k)
  {
  }

  /** The documented end of a line is the first "\r\n"; the code finds it exactly when the run of '\r' there is odd. */
  lemma DocumentedLineEnd(s: string, k: nat)
    requires CrLfAt(s, k) && forall j: nat :: j < k ==> !CrLfAt(s, j)
    ensures Scan(s, 0, 0) == Some(k) <==> CrRun(s, k - 1) % 2 == 1
  {
    LineEnd(s, k);
    forall j: nat | j < k ensures !EndsLine(s, j) {
      EndsWithCrLf(s, j);
    }
  }

  /** A line without '\r' is found whole. */
  lemma PlainLine(line: string, rest: string)
    requires '\r' !in line
    ensures Scan(line + EOL + rest, 0, 0) == Some(|line| + 2)
  {
    var s, k := line + EOL + rest, |line| + 2;
    LineEnd(s, k);
    assert s[|line|] == '\r' && s[|line| + 1] == '\n';
    assert |line| > 0 ==> s[|line| - 1] == line[|line| - 1];
    assert CrRun(s, k - 1) == 1;
    forall j: nat | j < k ensures !EndsLine(s, j) {
      EndsWithCrLf(s, j);
      assert 2 <= j < |line| + 2 ==> s[j - 2] == line[j - 2];
    }
  }

  // ----- numbers -----

  function DigitChar(d: nat): char
    requires d < 10
  {
    '0' + d as char
  }

  predicate IsDigit(c: char) {
    '0' <= c <= '9'
  }

  /** std::to_string of a non-negative int. */
  function ToString(n: nat): string {
    (if n < 10 then "" else ToString(n / 10)) + [DigitChar(n % 10)]
  }

  function DigitsValue(s: string, acc: nat): nat {
    if s == "" || !IsDigit(s[0]) then acc else DigitsValue(s[1..], 10 * acc + (s[0] as nat - '0' as nat))
  }

  predicate IsSpace(c: char) {
    c == ' ' || '\t' <= c <= '\r'
  }

  function Atoi(s: string): int {
    if s == "" then 0
    else if IsSpace(s[0]) then Atoi(s[1..])
    else if s[0] == '-' then 0 - DigitsValue(s[1..], 0)
    else if s[0] == '+' then DigitsValue(s[1..], 0)
    else DigitsValue(s, 0)
  }

  lemma {:induction false} DigitsThen(a: string, b: string, acc: nat)
    requires forall c :: c in a ==> IsDigit(c)
    ensures DigitsValue(a + b, acc) == DigitsValue(b, DigitsValue(a, acc))
    decreases a
  {
    if a == "" {
      assert a + b == b;
    } else {
      assert IsDigit(a[0]);
      assert (a + b)[1..] == a[1..] + b;
      DigitsThen(a[1..], b, 10 * acc + (a[0] as nat - '0' as nat));
    }
  }

  lemma {:induction false} PrintDigits(n: nat)
    ensures ToString(n) != "" && (forall c :: c in ToString(n) ==> IsDigit(c))
    ensures DigitsValue(ToString(n), 0) == n
  {
    var last := [DigitChar(n % 10)];
    assert last[1..] == "";
    if n < 10 {
      assert "" + last == last;
    } else {
      PrintDigits(n / 10);
      DigitsThen(ToString(n / 10), last, 0);
      assert DigitsValue(last, n / 10) == 10 * (n / 10) + n % 10;
    }
  }

  /** Reading back a printed number gives the number. */
  lemma AtoiOfToString(n: nat, rest: string)
    requires rest == "" || !IsDigit(rest[0])
    ensures Atoi(ToString(n) + rest) == n
  {
    PrintDigits(n);
    var s := ToString(n);
    assert IsDigit(s[0]) && (s + rest)[0] == s[0];
    DigitsThen(s, rest, 0);
  }

  predicate Blanks(s: string) {
    forall c :: c in s ==> c in {' ', '\t', '\n', '\U{0b}', '\U{0c}', '\r'}
  }

  /** Leading white space is skipped, and one sign is obeyed. */
  lemma {:induction false} AtoiOfSigned(blanks: string, sign: string, n: nat, rest: string)
    requires Blanks(blanks) && sign in {"", "+", "-"}
    requires rest == "" || !IsDigit(rest[0])
    ensures Atoi(blanks + sign + ToString(n) + rest) == if sign == "-" then 0 - n else n
    decreases blanks
  {
    var number := ToString(n) + rest;
    assert blanks + sign + ToString(n) + rest == blanks + sign + number;
    hide ToString;
    if blanks != "" {
      assert blanks[0] in blanks && IsSpace(blanks[0]);
      assert forall c :: c in blanks[1..] ==> c in blanks;
      assert (blanks + sign + number)[1..] == blanks[1..] + sign + number;
      assert blanks[1..] + sign + ToString(n) + rest == blanks[1..] + sign + number;
      AtoiOfSigned(blanks[1..], sign, n, rest);
    } else if sign == "" {
      assert blanks + sign + number == number;
      AtoiOfToString(n, rest);
    } else {
      assert blanks + sign + number == sign + number && (sign + number)[1..] == number;
      PrintDigits(n);
      DigitsThen(ToString(n), rest, 0);
    }
  }

  // ----- the server's answers -----

  const STATUS := "HTTP 200 OK"
  const LENGTH := "Content-Length:"

  function Header(length: nat): string {
    STATUS + EOL + (LENGTH + ToString(length) + EOL + "\n" + EOL)
  }

  /** The bytes a file is served as: its text is sent up to the first NUL. */
  function Answer(file: string): string {
    Header(|file|) + Text(file)
  }

  const BAD_REQUEST := "HTTP 400 Bad Request\r\n\n\r\n"
  const NOT_FOUND := "HTTP 404 Not Found\r\n\n\r\n"

  // ----- the client's reading of an answer -----

  /** Incomplete: the bytes end before a line that ends the header, and the client waits for it forever.
      Malformed: a line lacks the character behind which its number is looked for. */
  datatype Parsed = Accepted(code: int, length: int, rest: string) | BadRequest | NotFound | Malformed | Incomplete

  /** strchr(line, c) + 1, or None where strchr finds nothing. */
  function After(line: string, c: char): Option<string> {
    if line == "" then None else if line[0] == c then Some(line[1..]) else After(line[1..], c)
  }

  /** The buffer after bytes were received into it from its start. */
  function Overwrite(buffer: string, bytes: string): string {
    bytes + if |bytes| <= |buffer| then buffer[|bytes|..] else ""
  }

  /** What the buffer holds after a line: its end is two bytes of which recv_line sets the first to NUL. */
  function Stored(buffer: string, line: string): string {
    Overwrite(buffer, line + "\0\n")
  }

  /** At the end of the stream recv_line returns 0 and the client takes what the buffer holds for a line,
      once or twice, before it waits forever. */
  function ParseLeftover(line: string, count: nat): Parsed
    decreases 2 - count
  {
    if count == 0 then
      match After(line, ' ')
      case None => Malformed
      case Some(t) =>
        if Atoi(t) == 400 then BadRequest
        else if Atoi(t) == 404 then NotFound
        else ParseLeftover(line, 1)
    else if count == 1 && After(line, ':').None? then Malformed
    else Incomplete
  }

  /** The parsing loop of the client; code and length start uninitialised, and the buffer holds the request. */
  function Parse(s: string, buffer: string, count: nat, code: int, length: int): Parsed
    decreases |s|
  {
    match Scan(s, 0, 0)
    case None => ParseLeftover(Text(Overwrite(buffer, s)), count)
    case Some(k) =>
      LineEnd(s, k);
      var line, rest, after := Text(s[..k - 2]), s[k..], Stored(buffer, s[..k - 2]);
      if |line| == 1 then Accepted(code, length, rest)
      else if count == 0 then
        match After(line, ' ')
        case None => Malformed
        case Some(t) =>
          if Atoi(t) == 400 then BadRequest
          else if Atoi(t) == 404 then NotFound
          else Parse(rest, after, 1, Atoi(t), length)
      else if count == 1 then
        match After(line, ':')
        case None => Malformed
        case Some(t) => Parse(rest, after, 2, code, Atoi(t))
      else Parse(rest, after, count + 1, code, length)
  }

  lemma AfterFirst(a: string, c: char, b: string)
    requires c !in a
    ensures After(a + [c] + b, c) == Some(b)
  {
    if a == "" {
      assert a + [c] + b == [c] + b;
    } else {
      assert (a + [c] + b)[1..] == a[1..] + [c] + b;
    }
  }

  /** One step of the parsing loop over a plain line. */
  lemma NextLine(line: string, rest: string)
    requires '\r' !in line && NUL !in line
    ensures var s := line + EOL + rest;
            Scan(s, 0, 0) == Some(|line| + 2) && Text(s[..|line|]) == line && s[|line| + 2..] == rest
  {
    PlainLine(line, rest);
    PlainText(line);
    assert (line + EOL + rest)[..|line|] == line;
  }

  lemma StatusLine(digits: string, words: string)
    requires |digits| == 3 && forall c :: c in digits ==> IsDigit(c)
    requires words != "" && words[0] == ' ' && '\r' !in words && NUL !in words
    ensures var line := "HTTP " + digits + words;
            '\r' !in line && NUL !in line && After(line, ' ') == Some(digits + words)
  {
    AfterFirst("HTTP", ' ', digits + words);
    assert "HTTP" + [' '] + (digits + words) == "HTTP " + digits + words;
  }

  lemma LengthLine(n: nat)
    ensures var line := LENGTH + ToString(n);
            '\r' !in line && NUL !in line && |line| > 1 && After(line, ':') == Some(ToString(n))
  {
    PrintDigits(n);
    AfterFirst("Content-Length", ':', ToString(n));
    assert "Content-Length" + [':'] + ToString(n) == LENGTH + ToString(n);
  }

  lemma LengthAndBlankLine(n: nat, body: string, buffer: string, code: int, length: int)
    ensures Parse(LENGTH + ToString(n) + EOL + ("\n" + EOL + body), buffer, 1, code, length) == Accepted(code, n, body)
  {
    hide Scan, Text, StrLen, Atoi, After, ToString, Stored, Overwrite;
    var third := "\n" + EOL + body;
    AtoiOfToString(n, "");
    assert ToString(n) + "" == ToString(n);
    LengthLine(n);
    NextLine(LENGTH + ToString(n), third);
    NextLine("\n", body);
    var after := Stored(buffer, LENGTH + ToString(n));
    assert Parse(third, after, 2, code, n) == Accepted(code, n, body);
  }

  /** The client reads back what the server printed, and stops just before the body. */
  lemma HeaderRoundTrip(n: nat, body: string, buffer: string, code: int, length: int)
    ensures Parse(Header(n) + body, buffer, 0, code, length) == Accepted(200, n, body)
  {
    hide Scan, Text, StrLen, Atoi, After, ToString, Stored, Overwrite;
    var rest := LENGTH + ToString(n) + EOL + ("\n" + EOL + body);
    assert Header(n) + body == STATUS + EOL + rest;
    StatusCode(200, " OK");
    StatusLine("200", " OK");
    assert STATUS == "HTTP " + "200" + " OK" && ['2', '0', '0'] + " OK" == "200" + " OK";
    NextLine(STATUS, rest);
    assert (Header(n) + body)[..|STATUS|] == STATUS;
    LengthAndBlankLine(n, body, Stored(buffer, STATUS), 200, length);
  }

  /** Further header lines are skipped, empty ones included: the header ends only at a line of one character. */
  lemma ExtraLineSkipped(extra: string, rest: string, buffer: string, count: nat, code: int, length: int)
    requires count >= 2 && '\r' !in extra && NUL !in extra && |extra| != 1
    ensures Parse(extra + EOL + rest, buffer, count, code, length) ==
            Parse(rest, Stored(buffer, extra), count + 1, code, length)
  {
    hide Scan, Text, StrLen, Stored;
    NextLine(extra, rest);
    assert (extra + EOL + rest)[..|extra|] == extra;
  }

  /** So an answer whose header ends with an empty line, as RFC 9112 has it in section 2.1, is not accepted: the
      client goes on to look for header lines in the body. */
  lemma EmptyLineGoesOn(n: nat, body: string, buffer: string, code: int, length: int)
    requires '\n' !in body
    ensures Parse(STATUS + EOL + (LENGTH + ToString(n) + EOL + ("" + EOL + body)), buffer, 0, code, length)
            == Incomplete
  {
    hide Scan, Text, StrLen, Atoi, After, ToString, Stored, Overwrite;
    var second := LENGTH + ToString(n) + EOL + ("" + EOL + body);
    StatusCode(200, " OK");
    StatusLine("200", " OK");
    assert STATUS == "HTTP " + "200" + " OK" && ['2', '0', '0'] + " OK" == "200" + " OK";
    NextLine(STATUS, second);
    assert (STATUS + EOL + second)[..|STATUS|] == STATUS;
    AtoiOfToString(n, "");
    assert ToString(n) + "" == ToString(n);
    LengthLine(n);
    NextLine(LENGTH + ToString(n), "" + EOL + body);
    var line := LENGTH + ToString(n);
    assert (line + EOL + ("" + EOL + body))[..|line|] == line;
    ExtraLineSkipped("", body, Stored(Stored(buffer, STATUS), line), 2, 200, n);
    NoLineEnd(body);
  }

  lemma ThreeDigits(n: nat)
    requires 100 <= n < 1000
    ensures ToString(n) == [DigitChar(n / 100), DigitChar(n / 10 % 10), DigitChar(n % 10)]
  {
    assert ToString(n / 100) == [DigitChar(n / 100)];
    assert ToString(n / 10) == ToString(n / 100) + [DigitChar(n / 10 % 10)];
  }

  lemma StatusCode(n: nat, words: string)
    requires 100 <= n < 1000 && words != "" && words[0] == ' '
    ensures Atoi([DigitChar(n / 100), DigitChar(n / 10 % 10), DigitChar(n % 10)] + words) == n
  {
    hide Atoi, ToString;
    ThreeDigits(n);
    AtoiOfToString(n, words);
  }

  lemma BadRequestRecognised(tail: string, buffer: string, code: int, length: int)
    ensures Parse(BAD_REQUEST + tail, buffer, 0, code, length) == BadRequest
  {
    hide Scan, Text, StrLen, Atoi, After, Stored, Overwrite;
    var words, rest := " Bad Request", "\n" + EOL + tail;
    StatusCode(400, words);
    StatusLine("400", words);
    assert "HTTP " + "400" + words == "HTTP 400 Bad Request" && ['4', '0', '0'] + words == "400" + words;
    NextLine("HTTP 400 Bad Request", rest);
    assert BAD_REQUEST + tail == "HTTP 400 Bad Request" + EOL + rest;
  }

  lemma NotFoundRecognised(tail: string, buffer: string, code: int, length: int)
    ensures Parse(NOT_FOUND + tail, buffer, 0, code, length) == NotFound
  {
    hide Scan, Text, StrLen, Atoi, After, Stored, Overwrite;
    var words, rest := " Not Found", "\n" + EOL + tail;
    StatusCode(404, words);
    StatusLine("404", words);
    assert "HTTP " + "404" + words == "HTTP 404 Not Found" && ['4', '0', '4'] + words == "404" + words;
    NextLine("HTTP 404 Not Found", rest);
    assert NOT_FOUND + tail == "HTTP 404 Not Found" + EOL + rest;
  }

  lemma NoLineEnd(s: string)
    requires '\n' !in s
    ensures Scan(s, 0, 0) == None
  {
    match Scan(s, 0, 0)
    case None =>
    case Some(k) => LineEnd(s, k);
  }

  /** Text behind a prefix without NUL starts with that prefix. */
  lemma TextKeepsPrefix(a: string, b: string)
    requires NUL !in a
    ensures Text(a + b) == a + Text(b)
  {
    StrLenUnique(a + b, |a| + StrLen(b));
  }

  /** The answer may be cut off anywhere behind its code: the client takes the piece in its buffer for the line. */
  lemma CutNotFoundRecognised(cut: nat, buffer: string, code: int, length: int)
    requires 9 <= cut <= |NOT_FOUND|
    ensures Parse(NOT_FOUND[..cut], buffer, 0, code, length) == NotFound
  {
    hide Scan, Text, StrLen, Atoi, After, Stored;
    var line := "HTTP 404 Not Found";
    if cut >= |line| + 2 {
      var rest := NOT_FOUND[|line| + 2..cut];
      assert NOT_FOUND[..cut] == line + EOL + rest;
      var words := " Not Found";
      StatusCode(404, words);
      StatusLine("404", words);
      assert "HTTP " + "404" + words == line && ['4', '0', '4'] + words == "404" + words;
      NextLine(line, rest);
    } else {
      var s := NOT_FOUND[..cut];
      NoLineEnd(s);
      var held := Overwrite(buffer, s);
      assert held == "HTTP 404 " + held[9..];
      TextKeepsPrefix("HTTP 404 ", held[9..]);
      var words := " " + Text(held[9..]);
      AfterFirst("HTTP", ' ', "404" + words);
      assert "HTTP" + [' '] + ("404" + words) == Text(held);
      StatusCode(404, words);
      assert ['4', '0', '4'] + words == "404" + words;
    }
  }

  /** The answer is cut off in the label of its second line: the client looks for the colon in what that left of the
      status line and, behind that line's end, of its own request. */
  lemma CutLengthLine(cut: nat, request: string, code: int, length: int)
    requires cut <= |LENGTH| <= |request|
    ensures Parse(STATUS + EOL + LENGTH[..cut], request, 0, code, length) ==
            if cut == |LENGTH| || (cut > |STATUS| && ':' in Text(("\n" + request[13..])[cut - 12..]))
            then Incomplete else Malformed
  {
    hide Scan, Text, StrLen, Atoi, After, Stored, Overwrite;
    var rest, held := LENGTH[..cut], Stored(request, STATUS);
    StatusCode(200, " OK");
    StatusLine("200", " OK");
    assert STATUS == "HTTP " + "200" + " OK" && ['2', '0', '0'] + " OK" == "200" + " OK";
    NextLine(STATUS, rest);
    assert (STATUS + EOL + rest)[..|STATUS|] == STATUS;
    NoLineEnd(rest);
    var line := Text(Overwrite(held, rest));
    assert Parse(STATUS + EOL + rest, request, 0, code, length) == ParseLeftover(line, 1);
    AfterIff(line, ':');
    LeftOfHeld(cut, request);
  }

  /** What a cut text leaves of a stored line and of what follows its end. */
  lemma CutOverStored(text: string, cut: nat, line: string, tail: string)
    requires NUL !in text && NUL !in line && cut <= |text| <= |line| + 1 + |tail|
    ensures Text(Overwrite(line + ([NUL] + tail), text[..cut])) ==
            text[..cut] + if cut <= |line| then line[cut..] else Text(tail[cut - |line| - 1..])
  {
    hide Text, StrLen;
    var held, rest := line + ([NUL] + tail), text[..cut];
    assert Overwrite(held, rest) == rest + held[cut..];
    TextKeepsPrefix(rest, held[cut..]);
    if cut <= |line| {
      assert held[cut..] == line[cut..] + ([NUL] + tail);
      TextKeepsPrefix(line[cut..], [NUL] + tail);
      TextAfterNul([NUL] + tail);
    } else {
      assert held[cut..] == tail[cut - |line| - 1..];
    }
  }

  lemma LeftOfHeld(cut: nat, request: string)
    requires cut <= |LENGTH| <= |request|
    ensures var line := Text(Overwrite(Stored(request, STATUS), LENGTH[..cut]));
            ':' in line <==>
              cut == |LENGTH| || (cut > |STATUS| && ':' in Text(("\n" + request[13..])[cut - 12..]))
  {
    hide Text, StrLen, Overwrite;
    var tail := "\n" + request[13..];
    assert Stored(request, STATUS) == STATUS + ([NUL] + tail) by { StoredIs(request, STATUS); }
    assert NUL !in STATUS && NUL !in LENGTH && ':' !in STATUS;
    CutOverStored(LENGTH, cut, STATUS, tail);
    ColonLast(cut);
  }

  lemma StoredIs(buffer: string, line: string)
    requires |line| + 2 <= |buffer|
    ensures Stored(buffer, line) == line + ([NUL] + ("\n" + buffer[|line| + 2..]))
  {
  }

  lemma ColonLast(cut: nat)
    requires cut <= |LENGTH|
    ensures ':' in LENGTH[..cut] <==> cut == |LENGTH|
  {
    if cut == |LENGTH| {
      assert LENGTH[..cut][14] == ':';
    }
  }

  lemma TextAfterNul(b: string)
    requires b != "" && b[0] == NUL
    ensures Text(b) == ""
  {
  }

  /** When the server closes the connection without an answer the client parses its own request: asked for a file
      whose name starts with 404 it reports that the file is missing. */
  lemma NoAnswer(name: string, spare: nat, code: int, length: int)
    requires NUL !in name
    ensures Parse("", "GET " + name + EOL + Zeros(spare), 0, code, length) ==
            if Atoi(name + EOL) == 400 then BadRequest
            else if Atoi(name + EOL) == 404 then NotFound
            else if ':' in name then Incomplete
            else Malformed
  {
    hide StrLen, Text, Atoi;
    var request := "GET " + name + EOL;
    NoLineEnd("");
    TextKeepsPrefix(request, Zeros(spare));
    TextOfZeros(spare);
    assert request + "" == request;
    assert Overwrite(request + Zeros(spare), "") == request + Zeros(spare);
    AfterFirst("GET", ' ', name + EOL);
    assert "GET" + [' '] + (name + EOL) == request;
    AfterIff(request, ':');
  }

  lemma TextOfZeros(n: nat)
    ensures Text(Zeros(n)) == ""
  {
    StrLenUnique(Zeros(n), 0);
  }

  lemma AfterIff(line: string, c: char)
    ensures After(line, c).None? <==> c !in line
  {
  }

  // ----- the two programs -----

  /** The parts of an answer that went out when sends failed. */
  ghost predicate CutAnswer(file: string, i: nat, j: nat, k: nat, before: string, after: string) {
    var a, b, c := STATUS + EOL, LENGTH + ToString(|file|) + EOL + "\n" + EOL, Text(file);
    && i <= |a| && j <= |b| && k <= |c| && i + j + k < |a| + |b| + |c|
    && after == before + a[..i] + b[..j] + c[..k]
  }

  /** One byte more in the buffer. */
  lemma Poke(dest: string, s: string, i: nat)
    requires i < |s|
    ensures var b := Overwrite(dest, s[..i]);
            Overwrite(dest, s[..i + 1]) == b[..i] + [s[i]] + if i + 1 <= |b| then b[i + 1..] else ""
  {
  }

  lemma EndOfLine(dest: string, s: string, k: nat)
    requires 2 <= k <= |s| && s[k - 1] == '\n'
    ensures var buffer := Overwrite(dest, s[..k])[k - 2 := NUL];
            buffer == Stored(dest, s[..k - 2]) && Text(buffer) == Text(s[..k - 2])
  {
    var line, buffer := s[..k - 2], Overwrite(dest, s[..k])[k - 2 := NUL];
    assert buffer == Stored(dest, line);
    StrLenUnique(buffer, StrLen(line));
  }

  lemma NothingMore(buffer: string)
    ensures Scan("", 0, 0) == None && Overwrite(buffer, "") == buffer
  {
  }

  lemma PrefixIsText(n: nat)
    ensures Text(STATUS + EOL) == STATUS + EOL
    ensures var prefix := LENGTH + ToString(n) + EOL + "\n" + EOL; Text(prefix) == prefix
  {
    hide StrLen, Text;
    PrintDigits(n);
    PlainText(STATUS + EOL);
    PlainText(LENGTH + ToString(n) + EOL + "\n" + EOL);
  }

  /** A connected socket: what the peer's bytes hold, and what was sent. The peer has closed its side. */
  class Connection {
    var incoming: string
    var outgoing: string

    constructor (incoming: string)
      ensures this.incoming == incoming && outgoing == ""
    {
      this.incoming, outgoing := incoming, "";
    }

    /** recv: any positive number of bytes up to n, none only at the end of the stream. */
    method Recv(n: nat) returns (data: string)
      modifies this`incoming
      ensures data + incoming == old(incoming) && |data| <= n
      ensures data == "" <==> n == 0 || old(incoming) == ""
    {
      if n == 0 || incoming == "" {
        return "";
      }
      var k: nat :| 1 <= k <= n && k <= |incoming|;
      data := incoming[..k];
      incoming := incoming[k..];
    }

    /** send: any positive number of the bytes given, or -1. */
    method Send(buf: string) returns (sent: int)
      requires buf != ""
      modifies this`outgoing
      ensures sent == -1 || 1 <= sent <= |buf|
      ensures outgoing == if sent == -1 then old(outgoing) else old(outgoing) + buf[..sent]
    {
      var ok: bool :| true;
      if !ok {
        return -1;
      }
      var k: nat :| 1 <= k <= |buf|;
      outgoing := outgoing + buf[..k];
      return k;
    }

    /** 1 when the whole text went out, 0 when sending failed after n bytes of it. */
    method SendString(buf: string) returns (status: int, ghost n: nat)
      modifies this`outgoing
      ensures n <= |Text(buf)| && outgoing == old(outgoing) + Text(buf)[..n]
      ensures status == if n == |Text(buf)| then 1 else 0
    {
      var text := Text(buf);
      var done := 0;
      while done < |text|
        invariant 0 <= done <= |text|
        invariant outgoing == old(outgoing) + text[..done]
        decreases |text| - done
      {
        var sent := Send(text[done..]);
        if sent == -1 {
          return 0, done;
        }
        assert text[..done] + text[done..][..sent] == text[..done + sent];
        done := done + sent;
      }
      return 1, done;
    }

    /** -1 when there is no such file, 0 when a send failed, 1 when the answer went out. A failed send does not
        keep the later parts from being sent. */
    method SendFile(file: Option<string>) returns (status: int)
      modifies this`outgoing
      ensures status == -1 <==> file.None?
      ensures status == -1 ==> outgoing == old(outgoing)
      ensures status == 1 ==> outgoing == old(outgoing) + Answer(file.value)
      ensures status != 1 && file.Some? ==>
                status == 0 && exists i, j, k :: CutAnswer(file.value, i, j, k, old(outgoing), outgoing)
    {
      hide ToString, Text;
      if file.None? {
        return -1;
      }
      var prefix := LENGTH + ToString(|file.value|) + EOL + "\n" + EOL;
      PrefixIsText(|file.value|);
      var a, i := SendString(STATUS + EOL);
      var b, j := SendString(prefix);
      var c, k := SendString(file.value);
      if a + b + c != 3 {
        assert CutAnswer(file.value, i, j, k, old(outgoing), outgoing);
        return 0;
      }
      return 1;
    }

    /** The strlen of the line that recv_line leaves in the buffer; at the end of the stream 0, and `ended`. */
    method RecvLine(dest: string) returns (len: nat, buffer: string, ended: bool)
      modifies this`incoming
      ensures match Scan(old(incoming), 0, 0)
              case Some(k) =>
                && 2 <= k <= |old(incoming)| && incoming == old(incoming)[k..] && !ended
                && buffer == Stored(dest, old(incoming)[..k - 2]) && len == |Text(buffer)|
                && Text(buffer) == Text(old(incoming)[..k - 2])
              case None => ended && len == 0 && incoming == "" && buffer == Overwrite(dest, old(incoming))
    {
      hide StrLen, Text, Scan;
      ghost var s := incoming;
      var eolMatched, ptr := 0, 0;
      buffer := dest;
      assert s[..0] + dest == dest;
      while true
        invariant 0 <= eolMatched < 2 && ptr <= |s| && incoming == s[ptr..]
        invariant buffer == Overwrite(dest, s[..ptr])
        invariant Scan(s, ptr, eolMatched) == Scan(s, 0, 0)
        decreases |incoming|
      {
        ScanStep(s, ptr, eolMatched);
        var c := Recv(1);
        if c == "" {
          assert s[..ptr] == s;
          return 0, buffer, true;
        }
        Poke(dest, s, ptr);
        buffer := buffer[..ptr] + c + if ptr + 1 <= |buffer| then buffer[ptr + 1..] else "";
        assert c == [s[ptr]] && incoming == s[ptr + 1..];
        if c[0] == EOL[eolMatched] {
          eolMatched := eolMatched + 1;
          if eolMatched == 2 {
            LineEndFits(s, ptr + 1);
            buffer := buffer[ptr - 1 := NUL];
            EndOfLine(dest, s, ptr + 1);
            return |Text(buffer)|, buffer, false;
          }
        } else {
          eolMatched := 0;
        }
        ptr := ptr + 1;
      }
    }

    /** Small sizes are read with MSG_WAITALL, large ones piece by piece until all bytes are there; where the
        stream ends before that the code receives nothing forever. */
    method RecvStream(size: nat) returns (data: string, stalled: bool)
      modifies this`incoming
      ensures data + incoming == old(incoming)
      ensures |data| == if size <= |old(incoming)| then size else |old(incoming)|
      ensures stalled <==> size >= 5120 && size > |old(incoming)|
    {
      if size < 1024 * 5 {
        var k := if size <= |incoming| then size else |incoming|;
        data := incoming[..k];
        incoming := incoming[k..];
        return data, false;
      }
      data := "";
      while size - |data| > 5 * 1024
        invariant data + incoming == old(incoming) && |data| <= size
        decreases size - |data|
      {
        var piece := Recv(5 * 1024);
        if piece == "" {
          return data, true;
        }
        data := data + piece;
      }
      while |data| != size
        invariant data + incoming == old(incoming) && |data| <= size
        decreases size - |data|
      {
        var piece := Recv(size - |data|);
        if piece == "" {
          return data, true;
        }
        data := data + piece;
      }
      stalled := false;
    }

    /** The header loop of the client. */
    method ReadHeader(request: string, garbage: int) returns (parsed: Parsed)
      modifies this`incoming
      ensures parsed == Parse(old(incoming), request, 0, garbage, garbage)
      ensures parsed.Accepted? ==> incoming == parsed.rest
    {
      hide StrLen, Text, Scan, Stored;
      var count, code, length := 0, garbage, garbage;
      var buffer, len, ended := request, 0, false;
      while true
        invariant count >= 0
        invariant Parse(incoming, buffer, count, code, length) == Parse(old(incoming), request, 0, garbage, garbage)
        decreases |incoming|, 2 - count
      {
        ghost var s, dest := incoming, buffer;
        len, buffer, ended := RecvLine(buffer);
        if len == 1 {
          return Accepted(code, length, incoming);
        }
        if ended {
          NothingMore(buffer);
        }
        count := count + 1;
        if count == 1 {
          var t := After(Text(buffer), ' ');
          if t.None? {
            return Malformed;
          }
          code := Atoi(t.value);
          if code == 400 {
            return BadRequest;
          } else if code == 404 {
            return NotFound;
          }
        } else if count == 2 {
          var t := After(Text(buffer), ':');
          if t.None? {
            return Malformed;
          }
          length := Atoi(t.value);
        }
        if ended && count >= 2 {
          return Incomplete;
        }
      }
    }
  }

  /** A whole exchange, cut into pieces at the network's pleasure: if the server says it sent the file, the client
      sees code 200 and the printed length, and what it reads is the file's text before its first NUL. So it gets
      the file exactly when the file has no NUL, and a large file with a NUL keeps it waiting forever. */
  method Download(file: string, request: string, garbage: int)
    returns (sent: bool, parsed: Parsed, body: string, stalled: bool)
    ensures sent ==> parsed == Accepted(200, |file|, Text(file)) && body == Text(file)
    ensures sent ==> (body == file <==> NUL !in file)
    ensures sent ==> (stalled <==> |file| >= 5120 && NUL in file)
  {
    var server := new Connection("");
    var status := server.SendFile(Some(file));
    if status != 1 {
      return false, Incomplete, "", false;
    }
    assert "" + Answer(file) == Answer(file);
    var client := new Connection(server.outgoing);
    HeaderRoundTrip(|file|, Text(file), request, garbage, garbage);
    PlainText(file);
    parsed := client.ReadHeader(request, garbage);
    body, stalled := client.RecvStream(parsed.length);
    sent := true;
  }
}
