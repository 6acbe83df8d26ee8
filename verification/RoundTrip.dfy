/** Reading what Create wrote gives the metadata back, for exactly the names below. */
module RoundTrip {
  import opened Word64
  import opened Text
  import opened CoordinationFile

  /** The keys of the number lines, in order. */
  function Key(k: nat): string
    requires k < 6
  {
    if k == 0 then "shm_size"
    else if k == 1 then "queue_capacity"
    else if k == 2 then "payload_size"
    else if k == 3 then "producer_pid"
    else if k == 4 then "creation_timestamp"
    else "last_modify_timestamp"
  }

  /** The version line shows the name first: a name that is a number line's key is mistaken for it. */
  predicate NameSurvives(name: string) {
    NoQuote(name) && forall k: nat :: k < 6 ==> name != Key(k)
  }

  // ---- The rendered text, cut at its quotes ----

  /** A number line in front of a text already cut at its quotes. */
  function NumberSegs(key: string, n: int, end: string, tail: seq<string>): seq<string>
    requires tail != []
  {
    ["  ", key, ": " + PrintInt(n) + end + tail[0]] + tail[1..]
  }

  function StringSegs(key: string, value: string, tail: seq<string>): seq<string>
    requires tail != []
  {
    ["  ", key, ": ", value, ",\n" + tail[0]] + tail[1..]
  }

  lemma JoinCons(s: string, segs: seq<string>)
    requires segs != []
    ensures Join([s] + segs) == s + "\"" + Join(segs)
  {
    assert ([s] + segs)[1..] == segs;
  }

  lemma JoinPrefix(s: string, segs: seq<string>)
    requires segs != []
    ensures Join([s + segs[0]] + segs[1..]) == s + Join(segs)
  {
    var merged := [s + segs[0]] + segs[1..];
    assert merged[1..] == segs[1..];
  }

  lemma NumberJoin(key: string, n: int, end: string, tail: seq<string>)
    requires tail != []
    ensures Join(NumberSegs(key, n, end, tail)) == NumberLine(key, n, end) + Join(tail)
  {
    var s := ": " + PrintInt(n) + end;
    var rest := [s + tail[0]] + tail[1..];
    JoinPrefix(s, tail);
    JoinCons(key, rest);
    JoinCons("  ", [key] + rest);
    assert NumberSegs(key, n, end, tail) == ["  "] + ([key] + rest);
    NumberRegroup(key, PrintInt(n), end, Join(tail));
  }

  lemma NumberRegroup(key: string, num: string, end: string, tail: string)
    ensures "  " + "\"" + (key + "\"" + (": " + num + end + tail)) == "  \"" + key + "\": " + num + end + tail
  {
    assert "  \"" == "  " + "\"" && "\": " == "\"" + ": ";
    var rest := num + end + tail;
    assert ": " + num + end + tail == ": " + rest;
    assert "  \"" + key + "\": " + num + end + tail == "  \"" + key + "\": " + rest;
    Regroup("  \"" + key + "\"", ": ", rest);
  }

  lemma StringJoin(key: string, value: string, tail: seq<string>)
    requires tail != []
    ensures Join(StringSegs(key, value, tail)) == StringLine(key, value) + Join(tail)
  {
    var rest := [",\n" + tail[0]] + tail[1..];
    JoinPrefix(",\n", tail);
    JoinCons(value, rest);
    JoinCons(": ", [value] + rest);
    JoinCons(key, [": "] + ([value] + rest));
    JoinCons("  ", [key] + ([": "] + ([value] + rest)));
    assert StringSegs(key, value, tail) == ["  "] + ([key] + ([": "] + ([value] + rest)));
    StringRegroup(key, value, Join(tail));
  }

  lemma StringRegroup(key: string, value: string, tail: string)
    ensures "  " + "\"" + (key + "\"" + (": " + "\"" + (value + "\"" + (",\n" + tail))))
         == "  \"" + key + "\": \"" + value + "\",\n" + tail
  {
    assert "  \"" == "  " + "\"" && "\": \"" == "\"" + (": " + "\"") && "\",\n" == "\"" + ",\n";
    var rest := value + "\"" + (",\n" + tail);
    assert rest == value + "\",\n" + tail;
    Regroup("  \"" + key, "\": \"", rest);
    assert "\"" + (": " + "\"" + rest) == "\": \"" + rest;
    assert "  \"" + key + "\": \"" + value + "\",\n" + tail == "  \"" + key + "\": \"" + rest;
  }

  function NumSegs(m: CoordinationMetadata): (segs: seq<string>)
    ensures segs != []
  {
    NumberSegs("shm_size", m.shmSize, ",\n",
      NumberSegs("queue_capacity", m.queueCapacity, ",\n",
        NumberSegs("payload_size", m.payloadSize, ",\n",
          NumberSegs("producer_pid", m.producerPid, ",\n",
            NumberSegs("creation_timestamp", m.creationTime, ",\n",
              NumberSegs("last_modify_timestamp", m.modifyTime, "\n", ["}\n"]))))))
  }

  lemma JoinNumSegs(m: CoordinationMetadata)
    ensures Join(NumSegs(m)) == Numbers(m)
  {
    hide NumberLine, PrintInt, Join;
    var s6 := NumberSegs("last_modify_timestamp", m.modifyTime, "\n", ["}\n"]);
    var s5 := NumberSegs("creation_timestamp", m.creationTime, ",\n", s6);
    var s4 := NumberSegs("producer_pid", m.producerPid, ",\n", s5);
    var s3 := NumberSegs("payload_size", m.payloadSize, ",\n", s4);
    var s2 := NumberSegs("queue_capacity", m.queueCapacity, ",\n", s3);
    NumberJoin("shm_size", m.shmSize, ",\n", s2);
    NumberJoin("queue_capacity", m.queueCapacity, ",\n", s3);
    NumberJoin("payload_size", m.payloadSize, ",\n", s4);
    NumberJoin("producer_pid", m.producerPid, ",\n", s5);
    NumberJoin("creation_timestamp", m.creationTime, ",\n", s6);
    NumberJoin("last_modify_timestamp", m.modifyTime, "\n", ["}\n"]);
    assert Join(["}\n"]) == "}\n" by { JoinOne("}\n"); }
  }

  lemma JoinOne(s: string)
    ensures Join([s]) == s
  {
  }

  /** The middle of a number line and the start of the next line. */
  function Mid(n: int): string {
    ": " + PrintInt(n) + ",\n" + "  "
  }

  /** The pieces of the rendered text: every second one, from the second on, is between two quotes. */
  function Segs(m: CoordinationMetadata): (segs: seq<string>)
    ensures |segs| == 21
  {
    ["{\n  ", "version", ": ", m.shmName, ",\n  ", "shm_name", ": ", m.shmName, ",\n  ",
     Key(0), Mid(m.shmSize), Key(1), Mid(m.queueCapacity), Key(2), Mid(m.payloadSize),
     Key(3), Mid(m.producerPid), Key(4), Mid(m.creationTime), Key(5), ": " + PrintInt(m.modifyTime) + "\n" + "}\n"]
  }

  lemma NumSegsAre(m: CoordinationMetadata)
    ensures NumSegs(m) == ["  ", "shm_size", Mid(m.shmSize), "queue_capacity", Mid(m.queueCapacity),
                           "payload_size", Mid(m.payloadSize), "producer_pid", Mid(m.producerPid),
                           "creation_timestamp", Mid(m.creationTime), "last_modify_timestamp",
                           ": " + PrintInt(m.modifyTime) + "\n" + "}\n"]
  {
    hide PrintInt;
    var last := ": " + PrintInt(m.modifyTime) + "\n" + "}\n";
    var s6 := NumberSegs("last_modify_timestamp", m.modifyTime, "\n", ["}\n"]);
    assert s6 == ["  ", "last_modify_timestamp", last];
    var s5 := NumberSegs("creation_timestamp", m.creationTime, ",\n", s6);
    assert s5 == ["  ", "creation_timestamp", Mid(m.creationTime), "last_modify_timestamp", last];
    var s4 := NumberSegs("producer_pid", m.producerPid, ",\n", s5);
    assert s4 == ["  ", "producer_pid", Mid(m.producerPid)] + s5[1..];
    var s3 := NumberSegs("payload_size", m.payloadSize, ",\n", s4);
    assert s3 == ["  ", "payload_size", Mid(m.payloadSize)] + s4[1..];
    var s2 := NumberSegs("queue_capacity", m.queueCapacity, ",\n", s3);
    assert s2 == ["  ", "queue_capacity", Mid(m.queueCapacity)] + s3[1..];
    assert NumSegs(m) == ["  ", "shm_size", Mid(m.shmSize)] + s2[1..];
    hide Mid, NumSegs, NumberSegs;
    assert s4 == ["  ", "producer_pid", Mid(m.producerPid), "creation_timestamp", Mid(m.creationTime),
                  "last_modify_timestamp", last];
    assert s3 == ["  ", "payload_size", Mid(m.payloadSize), "producer_pid", Mid(m.producerPid), "creation_timestamp",
                  Mid(m.creationTime), "last_modify_timestamp", last];
    assert s2 == ["  ", "queue_capacity", Mid(m.queueCapacity), "payload_size", Mid(m.payloadSize), "producer_pid",
                  Mid(m.producerPid), "creation_timestamp", Mid(m.creationTime), "last_modify_timestamp", last];
  }

  lemma HeadSegs(name: string, tail: seq<string>)
    requires tail != [] && tail[0] == "  "
    ensures Join(["{\n  ", "version", ": ", name, ",\n  ", "shm_name", ": ", name, ",\n  "] + tail[1..])
         == "{\n" + (StringLine("version", name) + (StringLine("shm_name", name) + Join(tail)))
  {
    var s2 := StringSegs("shm_name", name, tail);
    var s1 := StringSegs("version", name, s2);
    StringJoin("shm_name", name, tail);
    StringJoin("version", name, s2);
    JoinPrefix("{\n", s1);
    hide Join, StringLine;
    StringSegsAre("shm_name", name, tail);
    StringSegsAre("version", name, s2);
    assert "{\n" + "  " == "{\n  ";
    hide StringSegs;
    Splice("{\n  ", "  ", "version", "shm_name", ": ", name, ",\n  ", tail[1..], s2, s1);
  }

  lemma Splice(first: string, indent: string, key1: string, key2: string, colon: string, name: string, comma: string,
               rest: seq<string>, s2: seq<string>, s1: seq<string>)
    requires s2 == [indent, key2, colon, name, comma] + rest
    requires s1 == [indent, key1, colon, name, comma] + s2[1..]
    ensures [first] + s1[1..] == [first, key1, colon, name, comma, key2, colon, name, comma] + rest
  {
    assert s2[1..] == [key2, colon, name, comma] + rest;
  }

  lemma StringSegsAre(key: string, value: string, tail: seq<string>)
    requires tail != [] && tail[0] == "  "
    ensures StringSegs(key, value, tail) == ["  ", key, ": ", value, ",\n  "] + tail[1..]
  {
    assert ",\n" + "  " == ",\n  ";
  }

  lemma JoinSegs(m: CoordinationMetadata)
    ensures Join(Segs(m)) == Render(m)
  {
    hide Join, StringLine, Numbers, NumSegs, PrintInt, Mid;
    JoinNumSegs(m);
    NumSegsAre(m);
    HeadSegs(m.shmName, NumSegs(m));
    var name := m.shmName;
    assert Segs(m) == ["{\n  ", "version", ": ", name, ",\n  ", "shm_name", ": ", name, ",\n  "] + NumSegs(m)[1..];
  }

  // ---- Where the reader's searches stop ----

  /** A character absent from some segments is absent from the text between the quotes around them. */
  lemma {:induction false} CharAbsent(segs: seq<string>, c: char, a: nat, b: nat)
    requires 0 < a <= b < |segs| && c != '\"'
    requires forall j :: a <= j < b ==> c !in segs[j]
    ensures Offset(segs, a) <= Offset(segs, b) <= |Join(segs)|
    ensures forall p :: Offset(segs, a) - 1 <= p < Offset(segs, b) ==> Join(segs)[p] != c
    decreases b - a
  {
    SegmentAt(segs, a - 1);
    if a < b {
      CharAbsent(segs, c, a, b - 1);
      SegmentAt(segs, b - 1);
      var o := Offset(segs, b - 1);
      forall p | o <= p < o + |segs[b - 1]| ensures Join(segs)[p] != c {
        assert Join(segs)[p] == Join(segs)[o..o + |segs[b - 1]|][p - o];
      }
    }
  }

  /** From the start of a segment, the next quote is the one that ends it. */
  lemma NextQuote(segs: seq<string>, i: nat)
    requires i + 1 < |segs| && |Join(segs)| < NPOS && NoQuote(segs[i])
    ensures Find(Join(segs), "\"", Offset(segs, i)) == Offset(segs, i + 1) - 1
  {
    SegmentAt(segs, i);
    var o := Offset(segs, i);
    forall p | o <= p < o + |segs[i]| ensures Join(segs)[p] != '\"' {
      assert Join(segs)[p] == Join(segs)[o..o + |segs[i]|][p - o];
    }
    FindChar(Join(segs), '\"', o, Offset(segs, i + 1) - 1);
  }

  ghost predicate Keyed(segs: seq<string>, key: string, i: nat) {
    && |Join(segs)| < NPOS
    && (forall j :: 0 <= j < |segs| ==> NoQuote(segs[j]))
    && 0 < i < |segs| - 1 && segs[i] == key
    && (forall j :: 0 < j < i ==> segs[j] != key)
  }

  /** The first colon after a key is at the start of the first later segment that begins with one. */
  lemma ColonAfter(segs: seq<string>, key: string, i: nat, c: nat)
    requires Keyed(segs, key, i) && i < c < |segs|
    requires (forall j :: i <= j < c ==> ':' !in segs[j]) && segs[c] != "" && segs[c][0] == ':'
    ensures Find(Join(segs), "\"" + key + "\"", 0) == Offset(segs, i) - 1
    ensures Find(Join(segs), ":", Offset(segs, i) - 1) == Offset(segs, c)
    ensures Offset(segs, i) <= Offset(segs, c) < |Join(segs)|
  {
    hide Join, Offset, Find, NoQuote;
    FindKey(segs, key, i);
    CharAbsent(segs, ':', i, c);
    SegmentAt(segs, c);
    assert Join(segs)[Offset(segs, c)] == Join(segs)[Offset(segs, c)..Offset(segs, c) + |segs[c]|][0];
    FindChar(Join(segs), ':', Offset(segs, i) - 1, Offset(segs, c));
  }

  /** The characters strictly between two positions, with the reader's unsigned arithmetic. */
  lemma SubstrBetween(s: string, a: nat, b: nat)
    requires a < b <= |s| < NPOS
    ensures Substr(s, Add(a, 1), Sub(Sub(b, a), 1)) == Value(s[a + 1..b])
  {
    assert Add(a, 1) == a + 1 && Sub(b, a) == b - a && Sub(b - a, 1) == b - a - 1;
  }

  lemma SubstrToEnd(s: string, a: nat)
    requires a < |s| < NPOS
    ensures Substr(s, Add(a, 1), Sub(Sub(NPOS, a), 1)) == Value(s[a + 1..])
  {
    assert Add(a, 1) == a + 1 && Sub(NPOS, a) == NPOS - a && Sub(NPOS - a, 1) == NPOS - a - 1;
  }

  lemma SliceOf(text: string, s: string, c: nat, from: nat, to: nat)
    requires At(text, s, c) && from <= to <= |s|
    ensures text[c + from..c + to] == s[from..to]
  {
    assert text[c..c + |s|] == s;
    forall k | 0 <= k < to - from ensures text[c + from..c + to][k] == s[from..to][k] {
      assert text[c..c + |s|][from + k] == text[c + from + k];
    }
  }

  /** A key followed by a number line gives the text of the number. */
  lemma FieldTextIs(segs: seq<string>, key: string, i: nat, num: string, stop: char, tail: string)
    requires Keyed(segs, key, i) && ':' !in key
    requires segs[i + 1] == ": " + num + [stop] + tail && stop !in num && stop != ':' && stop != ' '
    ensures FieldText(Join(segs), key, stop) == Got(" " + num)
  {
    hide Add, Sub, Join, Offset, Find;
    var text, s, c := Join(segs), segs[i + 1], Offset(segs, i + 1);
    var end := c + 2 + |num|;
    ColonAfter(segs, key, i, i + 1);
    SegmentAt(segs, i + 1);
    SliceOf(text, s, c, 0, 2 + |num|);
    SliceOf(text, s, c, 1, 2 + |num|);
    SliceOf(text, s, c, 2 + |num|, 3 + |num|);
    assert s[..2 + |num|] == ": " + num && s[1..2 + |num|] == " " + num && s[2 + |num|] == stop;
    forall j | c <= j < end ensures text[j] != stop {
      assert text[j] == text[c..end][j - c] == (": " + num)[j - c];
      assert j >= c + 2 ==> (": " + num)[j - c] in num;
    }
    FindChar(text, stop, c, end);
    SubstrBetween(text, c, end);
  }

  /** A name equal to a later key makes that key's number start with a quote. */
  lemma FieldTextBad(segs: seq<string>, key: string, stop: char)
    requires |segs| > 8 && Keyed(segs, key, 3)
    requires (forall j :: 3 <= j < 6 ==> ':' !in segs[j]) && segs[6] == ": "
    requires stop != ':' && stop != ' ' && stop != '\"'
    ensures var f := FieldText(Join(segs), key, stop);
            f.Got? && |f.value| >= 2 && f.value[0] == ' ' && f.value[1] == '\"'
  {
    hide Add, Sub, Join, Offset, Find;
    var text, c := Join(segs), Offset(segs, 6);
    ColonAfter(segs, key, 3, 6);
    SegmentAt(segs, 6);
    assert text[c..c + 2] == ": " && text[c + 2] == '\"';
    assert text[c] == text[c..c + 2][0] && text[c + 1] == text[c..c + 2][1];
    var end := Find(text, [stop], c);
    if end == NPOS {
      SubstrToEnd(text, c);
    } else {
      assert At(text, [stop], end);
      assert text[end] == text[end..end + 1][0] == stop;
      SubstrBetween(text, c, end);
    }
  }

  /** The text after a position is cut at the next two quotes, and so contains none. */
  lemma QuotedAfterIs(content: string, colon: nat)
    requires |content| < NPOS
    ensures var quote1 := Find(content, "\"", colon);
            quote1 != NPOS ==>
              var quote2 := Find(content, "\"", quote1 + 1);
              quote2 != NPOS ==> quote1 + 1 <= quote2 && QuotedAfter(content, colon) == Got(content[quote1 + 1..quote2])
    ensures QuotedAfter(content, colon).Got? ==>
              var quote1 := Find(content, "\"", colon);
              quote1 != NPOS && Find(content, "\"", quote1 + 1) != NPOS
  {
    var quote1 := Find(content, "\"", colon);
    if quote1 != NPOS {
      AddOne(quote1);
      var quote2 := Find(content, "\"", quote1 + 1);
      if quote2 != NPOS {
        SubstrBetween(content, quote1, quote2);
      }
    }
  }

  /** Between the quotes that follow the name's key stands the name. */
  lemma NameFieldIs(segs: seq<string>, i: nat)
    requires |segs| > 8 && Keyed(segs, "shm_name", i) && i < 6
    requires (forall j :: i <= j < 6 ==> ':' !in segs[j]) && segs[6] == ": "
    ensures NameField(Join(segs)) == Got(segs[7])
  {
    hide Join, Offset, Find, QuotedAfter, NoQuote, NameField;
    assert segs[6][0] == ':';
    var key := "shm_name";
    NameFieldSplit(Join(segs), key);
    ColonAfter(segs, key, i, 6);
    QuotedSegment(segs, 6);
  }

  lemma NameFieldSplit(content: string, key: string)
    requires |content| < NPOS && key == "shm_name"
    ensures var pos := Find(content, "\"" + key + "\"", 0);
            pos != NPOS ==> NameField(content) == QuotedAfter(content, Find(content, ":", pos))
  {
    hide Find, QuotedAfter;
    assert "\"shm_name\"" == "\"" + "shm_name" + "\"";
  }

  lemma QuotedSegment(segs: seq<string>, i: nat)
    requires i + 2 < |segs| && |Join(segs)| < NPOS && NoQuote(segs[i]) && NoQuote(segs[i + 1])
    ensures QuotedAfter(Join(segs), Offset(segs, i)) == Got(segs[i + 1])
  {
    hide Join, Offset, Find, QuotedAfter, NoQuote;
    NextQuote(segs, i);
    SegmentAt(segs, i);
    SegmentAt(segs, i + 1);
    NextQuote(segs, i + 1);
    QuotedAfterIs(Join(segs), Offset(segs, i));
  }

  /** Whatever the file holds, the name that is read contains no quote. */
  lemma NameHasNoQuote(content: string)
    requires |content| < NPOS && NameField(content).Got?
    ensures NoQuote(NameField(content).value)
  {
    hide QuotedAfter;
    var colon := Find(content, ":", Find(content, "\"shm_name\"", 0));
    QuotedAfterIs(content, colon);
    NoQuoteBetween(content, Find(content, "\"", colon) + 1);
  }

  lemma NoQuoteBetween(content: string, from: nat)
    requires |content| < NPOS && Find(content, "\"", from) != NPOS
    ensures NoQuote(content[from..Find(content, "\"", from)])
  {
    forall k | from <= k < Find(content, "\"", from) ensures content[k] != '\"' {
      assert content[k..k + 1] == [content[k]];
      assert !At(content, "\"", k);
    }
  }

  // ---- The round trip ----

  lemma PrintedHas(n: int, c: char)
    requires !IsDigit(c) && c != '-'
    ensures c !in PrintInt(n)
  {
  }

  lemma SegsHaveNoQuote(m: CoordinationMetadata)
    requires NoQuote(m.shmName)
    ensures forall j :: 0 <= j < |Segs(m)| ==> NoQuote(Segs(m)[j])
  {
    MidHasNoQuote(m.shmSize);
    MidHasNoQuote(m.queueCapacity);
    MidHasNoQuote(m.payloadSize);
    MidHasNoQuote(m.producerPid);
    MidHasNoQuote(m.creationTime);
    PrintedHas(m.modifyTime, '\"');
    hide Mid, PrintInt;
    assert NoQuote(": " + PrintInt(m.modifyTime) + "\n" + "}\n");
    LiteralsHaveNoQuote();
    forall k: nat | k < 6 ensures NoQuote(Key(k)) { KeyIsWord(k); }
    hide NoQuote, Key;
  }

  lemma LiteralsHaveNoQuote()
    ensures NoQuote("{\n  ") && NoQuote("version") && NoQuote(": ") && NoQuote(",\n  ") && NoQuote("shm_name")
  {
  }

  lemma MidHasNoQuote(n: int)
    ensures NoQuote(Mid(n))
  {
    PrintedHas(n, '\"');
  }

  predicate KeyLike(s: string) {
    s != "" && s[0] in "sqpcl"
  }

  /** Length and second character tell the keys apart. */
  lemma KeyShape(k: nat)
    requires k < 6
    ensures |Key(k)| == [8, 14, 12, 12, 18, 21][k] && Key(k)[1] == ['h', 'u', 'a', 'r', 'r', 'a'][k]
  {
  }

  lemma KeyStart(k: nat)
    requires k < 6
    ensures KeyLike(Key(k))
  {
    assert "sqpcl" == ['s', 'q', 'p', 'c', 'l'];
  }

  predicate IsWord(s: string) {
    forall c :: c in s ==> c != ':' && c != '\"'
  }

  lemma KeyIsWord(k: nat)
    requires k < 6
    ensures IsWord(Key(k))
  {
    assert IsWord("shm_size") && IsWord("queue_capacity") && IsWord("payload_size");
    assert IsWord("producer_pid");
    assert IsWord("creation_timestamp");
    assert IsWord("last_modify_timestamp");
  }

  lemma KeyIsNumeric(k: nat)
    requires k < 6
    ensures Key(k) != "version" && Key(k) != "shm_name"
  {
    KeyShape(k);
    assert |"version"| == 7 && |"shm_name"| == 8;
    assert Key(0)[4] != "shm_name"[4];
  }

  lemma KeysDiffer(a: nat, b: nat)
    requires a < b < 6
    ensures Key(a) != Key(b)
  {
    KeyShape(a);
    KeyShape(b);
    hide Key;
  }

  lemma GapsAreNoKeys(m: CoordinationMetadata, j: nat)
    requires j < 21 && j % 2 == 0
    ensures !KeyLike(Segs(m)[j])
  {
    hide PrintInt;
  }

  lemma OddSegs(m: CoordinationMetadata, j: nat)
    requires j < 21 && j % 2 == 1
    ensures j >= 9 ==> Segs(m)[j] == Key((j - 9) / 2)
    ensures j < 9 ==> Segs(m)[j] in ["version", m.shmName, "shm_name"]
  {
    hide PrintInt, Mid, Key;
    assert Segs(m)[1] == "version" && Segs(m)[3] == m.shmName && Segs(m)[5] == "shm_name" && Segs(m)[7] == m.shmName;
  }

  lemma EarlierDiffers(m: CoordinationMetadata, k: nat, j: nat)
    requires k < 6 && m.shmName != Key(k) && 0 < j < 9 + 2 * k
    ensures Segs(m)[j] != Key(k)
  {
    hide Segs, Key, KeyLike;
    KeyStart(k);
    KeyIsNumeric(k);
    if j % 2 == 0 {
      GapsAreNoKeys(m, j);
    } else {
      OddSegs(m, j);
      if j >= 9 {
        KeysDiffer((j - 9) / 2, k);
      }
    }
  }

  /** In the rendered text, number key `k` stands at segment 9 + 2k and nowhere before. */
  lemma LaterKeyed(m: CoordinationMetadata, k: nat)
    requires |Render(m)| < NPOS && NoQuote(m.shmName) && k < 6
    requires m.shmName != Key(k)
    ensures Keyed(Segs(m), Key(k), 9 + 2 * k)
  {
    hide Segs, Key, Join, NoQuote, Render;
    JoinSegs(m);
    SegsHaveNoQuote(m);
    OddSegs(m, 9 + 2 * k);
    forall j: nat | 0 < j < 9 + 2 * k ensures Segs(m)[j] != Key(k) {
      EarlierDiffers(m, k, j);
    }
  }

  /** The name's key is found before the name's colon, even when the name is that key. */
  lemma NameRead(m: CoordinationMetadata)
    requires |Render(m)| < NPOS && NoQuote(m.shmName)
    ensures NameField(Render(m)) == Got(m.shmName)
  {
    hide Segs, Join, NoQuote, Render, NameField, Keyed;
    JoinSegs(m);
    NameKeyed(m);
    FirstSegs(m);
    NameFieldIs(Segs(m), if m.shmName == "shm_name" then 3 else 5);
  }

  lemma NameKeyed(m: CoordinationMetadata)
    requires |Render(m)| < NPOS && NoQuote(m.shmName)
    ensures Keyed(Segs(m), "shm_name", if m.shmName == "shm_name" then 3 else 5)
  {
    hide Segs, Join, NoQuote, Render;
    JoinSegs(m);
    SegsHaveNoQuote(m);
    FirstSegs(m);
  }

  lemma FirstSegs(m: CoordinationMetadata)
    ensures Segs(m)[3] == Segs(m)[7] == m.shmName && Segs(m)[5] == "shm_name" && Segs(m)[6] == ": "
    ensures forall j :: j == 1 || j == 2 || j == 4 ==> Segs(m)[j] != "shm_name"
    ensures ':' !in Segs(m)[4] && ':' !in Segs(m)[5]
  {
    hide PrintInt, Mid, Key;
    assert Segs(m)[1] == "version" && Segs(m)[2] == ": " && Segs(m)[4] == ",\n  ";
    assert |"version"| == 7 && |": "| == 2 && |",\n  "| == 4 && |"shm_name"| == 8;
    hide Segs;
    assert IsWord(",\n  ") && IsWord("shm_name");
  }

  /** The text found for number key `k`. */
  lemma NumberRead(m: CoordinationMetadata, k: nat, num: string, stop: char, tail: string)
    requires |Render(m)| < NPOS && NoQuote(m.shmName) && k < 6 && m.shmName != Key(k)
    requires stop !in num && (stop == ',' || stop == '}')
    requires Segs(m)[10 + 2 * k] == ": " + num + [stop] + tail
    ensures FieldText(Render(m), Key(k), stop) == Got(" " + num)
  {
    LaterKeyed(m, k);
    JoinSegs(m);
    KeyIsWord(k);
    hide Segs, Key, Join, Render, FieldText, Keyed, PrintInt;
    FieldTextIs(Segs(m), Key(k), 9 + 2 * k, num, stop, tail);
  }

  function Number(m: CoordinationMetadata, k: nat): int
    requires k < 6
  {
    if k == 0 then m.shmSize
    else if k == 1 then m.queueCapacity
    else if k == 2 then m.payloadSize
    else if k == 3 then m.producerPid
    else if k == 4 then m.creationTime
    else m.modifyTime
  }

  lemma NumberSegment(m: CoordinationMetadata, k: nat)
    requires k < 6
    ensures k < 5 ==> Segs(m)[10 + 2 * k] == Mid(Number(m, k))
    ensures k == 5 ==> Segs(m)[10 + 2 * k] == ": " + PrintInt(Number(m, k)) + "\n" + "}\n"
  {
    hide PrintInt, Mid, Key;
  }

  lemma MidParts(num: string)
    ensures ": " + num + ",\n" + "  " == ": " + num + [','] + "\n  "
  {
    assert ",\n" == [','] + "\n" && "\n  " == "\n" + "  ";
    assert ": " + num + ",\n" == ": " + num + [','] + "\n";
  }

  lemma LastParts(num: string)
    ensures ": " + num + "\n" + "}\n" == ": " + (num + "\n") + ['}'] + "\n"
  {
    assert "}\n" == ['}'] + "\n";
    assert ": " + num + "\n" == ": " + (num + "\n");
  }

  /** The conversions see the printed number; only the last one is followed by a line break. */
  lemma NumberTextRead(m: CoordinationMetadata, k: nat)
    requires |Render(m)| < NPOS && NoQuote(m.shmName) && k < 6 && m.shmName != Key(k)
    ensures var f := FieldText(Render(m), Key(k), if k == 5 then '}' else ',');
            f.Got? && ReadNumber(f.value) == Value(Number(m, k))
  {
    var num := PrintInt(Number(m, k));
    NumberSegment(m, k);
    PrintedHas(Number(m, k), ',');
    PrintedHas(Number(m, k), '}');
    PrintedReads(Number(m, k));
    MidParts(num);
    LastParts(num);
    hide Segs, Key, PrintInt, ReadNumber, Number, Render, FieldText, NoQuote;
    if k == 5 {
      assert '}' !in num + "\n";
      NumberRead(m, k, num + "\n", '}', "\n");
    } else {
      NumberRead(m, k, num, ',', "\n  ");
    }
  }

  lemma PrintedReads(n: int)
    ensures ReadNumber(" " + PrintInt(n)) == Value(n) && ReadNumber(" " + (PrintInt(n) + "\n")) == Value(n)
  {
    PrintedIsRead(n, "");
    PrintedIsRead(n, "\n");
    hide PrintInt, ReadNumber;
    assert " " + PrintInt(n) + "" == " " + PrintInt(n);
    assert " " + PrintInt(n) + "\n" == " " + (PrintInt(n) + "\n");
  }

  /** Number field `k` of the rendered text, read with the conversion the reader uses for it. */
  ghost predicate NumberBack(m: CoordinationMetadata, k: nat)
    requires |Render(m)| < NPOS && k < 6
  {
    if k < 3 then UnsignedField(Render(m), Key(k)) == Got(Number(m, k))
    else SignedField(Render(m), Key(k), if k == 5 then '}' else ',') == Got(Number(m, k))
  }

  lemma NumberIsBack(m: CoordinationMetadata, k: nat)
    requires |Render(m)| < NPOS && NoQuote(m.shmName) && k < 6 && m.shmName != Key(k)
    ensures NumberBack(m, k)
  {
    hide Key, ReadNumber, Render, FieldText, NoQuote, UnsignedField, SignedField;
    NumberTextRead(m, k);
    Converted(Render(m), Key(k), if k == 5 then '}' else ',', Number(m, k));
  }

  /** What the conversions make of a field's text. */
  lemma Converted(content: string, key: string, stop: char, n: int)
    requires |content| < NPOS
    requires var f := FieldText(content, key, stop); f.Got? && ReadNumber(f.value) == Value(n)
    ensures stop == ',' && 0 <= n < TWO64 ==> UnsignedField(content, key) == Got(n)
    ensures INT64_MIN <= n <= INT64_MAX ==> SignedField(content, key, stop) == Got(n)
  {
    hide ReadNumber, FieldText;
  }

  lemma QuotedFails(content: string, key: string, stop: char)
    requires |content| < NPOS
    requires var f := FieldText(content, key, stop); f.Got? && |f.value| >= 2 && f.value[0] == ' ' && f.value[1] == '\"'
    ensures stop == ',' ==> UnsignedField(content, key).Failed?
    ensures SignedField(content, key, stop).Failed?
  {
    QuoteIsNoNumber(FieldText(content, key, stop).value);
    hide ReadNumber, FieldText;
  }

  /** A name that is number key `k` makes that field throw. */
  lemma NumberFails(m: CoordinationMetadata, k: nat)
    requires |Render(m)| < NPOS && k < 6 && m.shmName == Key(k)
    ensures var stop := if k == 5 then '}' else ',';
            UnsignedField(Render(m), Key(k)).Failed? && SignedField(Render(m), Key(k), stop).Failed?
  {
    hide Segs, Join, Render, Keyed, UnsignedField, SignedField, FieldText, Key;
    JoinSegs(m);
    NameIsKeyed(m, k);
    QuotedField(m, Segs(m), k, ',');
    QuotedField(m, Segs(m), k, '}');
  }

  lemma QuotedField(m: CoordinationMetadata, segs: seq<string>, k: nat, stop: char)
    requires |Render(m)| < NPOS && k < 6 && m.shmName == Key(k) && (stop == ',' || stop == '}')
    requires segs == Segs(m) && Join(segs) == Render(m) && Keyed(segs, Key(k), 3)
    ensures stop == ',' ==> UnsignedField(Render(m), Key(k)).Failed?
    ensures SignedField(Render(m), Key(k), stop).Failed?
  {
    KeyIsWord(k);
    FirstSegs(m);
    hide Segs, Join, Render, Keyed, Key, UnsignedField, SignedField, FieldText;
    assert IsWord(segs[3]) && segs[6] == ": ";
    FieldTextBad(segs, Key(k), stop);
    QuotedFails(Render(m), Key(k), stop);
  }

  lemma NameIsKeyed(m: CoordinationMetadata, k: nat)
    requires |Render(m)| < NPOS && k < 6 && m.shmName == Key(k)
    ensures Keyed(Segs(m), Key(k), 3)
  {
    KeyIsWord(k);
    assert NoQuote(m.shmName);
    JoinSegs(m);
    SegsHaveNoQuote(m);
    FirstSegs(m);
    hide Segs, Join, Render, NoQuote, Key;
    forall j | 0 < j < 3 ensures Segs(m)[j] != Key(k) { EarlyDiffers(m, k, j); }
  }

  lemma EarlyDiffers(m: CoordinationMetadata, k: nat, j: nat)
    requires 0 < j < 3 && k < 6
    ensures Segs(m)[j] != Key(k)
  {
    hide Key, PrintInt, Mid;
    KeyIsNumeric(k);
    KeyShape(k);
    assert |": "| == 2;
  }

  lemma PidIsBack(p: pid)
    ensures ToPid(p) == p
  {
  }

  /** Reading the written text gives the same metadata exactly when the name has no quote and is no number key. */
  lemma RoundTripExact(m: CoordinationMetadata)
    requires |Render(m)| < NPOS
    ensures Parse(Render(m)) == Success(m) <==> NameSurvives(m.shmName)
  {
    hide Key, UnsignedField, SignedField, NameField, ToPid, NoQuote, Number;
    if NameSurvives(m.shmName) {
      NameRead(m);
      forall k: nat | k < 6 ensures NumberBack(m, k) { NumberIsBack(m, k); }
      FieldsBack(m);
    } else if !NoQuote(m.shmName) {
      if Parse(Render(m)) == Success(m) { NameHasNoQuote(Render(m)); }
    } else {
      var k: nat :| k < 6 && m.shmName == Key(k);
      NumberFails(m, k);
      FieldsFail(m, k);
    }
  }

  lemma FieldsBack(m: CoordinationMetadata)
    requires |Render(m)| < NPOS && NameField(Render(m)) == Got(m.shmName)
    requires forall k: nat :: k < 6 ==> NumberBack(m, k)
    ensures Parse(Render(m)) == Success(m)
  {
    hide UnsignedField, SignedField, NameField, Render;
    assert NumberBack(m, 0) && NumberBack(m, 1) && NumberBack(m, 2) && NumberBack(m, 3) && NumberBack(m, 4)
        && NumberBack(m, 5);
    PidIsBack(m.producerPid);
    assert Render(m) != "" by { RenderStarts(m); }
  }

  lemma RenderStarts(m: CoordinationMetadata)
    ensures Render(m) != ""
  {
  }

  lemma FieldsFail(m: CoordinationMetadata, k: nat)
    requires |Render(m)| < NPOS && k < 6
    requires var stop := if k == 5 then '}' else ',';
             UnsignedField(Render(m), Key(k)).Failed? && SignedField(Render(m), Key(k), stop).Failed?
    ensures !Parse(Render(m)).Success?
  {
    hide UnsignedField, SignedField, NameField, Render;
  }

  /** POSIX names start with a slash, and then only a quote is in the way. */
  lemma SlashNamesSurvive(m: CoordinationMetadata)
    requires |Render(m)| < NPOS && m.shmName != "" && m.shmName[0] == '/'
    ensures Parse(Render(m)) == Success(m) <==> '\"' !in m.shmName
  {
    RoundTripExact(m);
    hide Parse, Render, Key;
    forall k: nat | k < 6 ensures m.shmName != Key(k) {
      KeyStart(k);
    }
  }

  /**
   * A name that is number key `k` is read back with the numbers before line `k`; from there on the
   * caller's record keeps what it held.
   */
  lemma ReadUpToKey(m: CoordinationMetadata, metadata0: CoordinationMetadata, k: nat)
    requires |Render(m)| < NPOS && k < 6 && m.shmName == Key(k)
    ensures var filled := Filled(Render(m), metadata0);
            filled.shmName == m.shmName && forall j: nat :: j < 6 ==> Number(filled, j) == Number(if j < k then m else metadata0, j)
  {
    KeyIsWord(k);
    assert NoQuote(m.shmName);
    NameRead(m);
    forall j: nat | j < k ensures NumberBack(m, j) {
      KeysDiffer(j, k);
      NumberIsBack(m, j);
    }
    NumberFails(m, k);
    PidIsBack(m.producerPid);
    FilledUpTo(m, metadata0, k);
  }

  lemma FilledUpTo(m: CoordinationMetadata, metadata0: CoordinationMetadata, k: nat)
    requires |Render(m)| < NPOS && k < 6 && NameField(Render(m)) == Got(m.shmName)
    requires forall j: nat :: j < k ==> NumberBack(m, j)
    requires var stop := if k == 5 then '}' else ',';
             UnsignedField(Render(m), Key(k)).Failed? && SignedField(Render(m), Key(k), stop).Failed?
    ensures var filled := Filled(Render(m), metadata0);
            filled.shmName == m.shmName && forall j: nat :: j < 6 ==> Number(filled, j) == Number(if j < k then m else metadata0, j)
  {
    hide UnsignedField, SignedField, NameField, Render, ToPid;
    PidIsBack(m.producerPid);
    forall j: nat | j < k ensures NumberBack(m, j) {}
    assert k > 0 ==> NumberBack(m, 0);
    assert k > 1 ==> NumberBack(m, 1);
    assert k > 2 ==> NumberBack(m, 2);
    assert k > 3 ==> NumberBack(m, 3);
    assert k > 4 ==> NumberBack(m, 4);
  }
}
