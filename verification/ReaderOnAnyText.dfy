/** What the reader of the coordination file does with any text, in terms of what occurs in it. */
module ReaderOnAnyText {
  import opened Word64
  import opened Text
  import opened CoordinationFile
  import opened RoundTrip

  ghost predicate Occurs(content: string, pat: string) {
    exists p: nat :: At(content, pat, p)
  }

  /** `p` is the first place at or after `from` where the pattern stands. */
  ghost predicate FirstFrom(content: string, pat: string, from: nat, p: nat) {
    from <= p && At(content, pat, p) && forall j: nat :: from <= j < p ==> !At(content, pat, j)
  }

  /** The pattern stands nowhere at or after `from`. */
  ghost predicate NoneFrom(content: string, pat: string, from: nat) {
    forall j: nat :: from <= j ==> !At(content, pat, j)
  }

  lemma FoundIsFirst(content: string, pat: string, from: nat)
    requires |content| < NPOS && pat != ""
    ensures var p := Find(content, pat, from);
            if p == NPOS then NoneFrom(content, pat, from) else FirstFrom(content, pat, from, p) && p < |content|
  {
  }

  lemma FirstIsFound(content: string, pat: string, from: nat, p: nat)
    requires |content| < NPOS && pat != "" && FirstFrom(content, pat, from, p)
    ensures Find(content, pat, from) == p
  {
    FindIs(content, pat, from, p);
  }

  lemma NoneIsFound(content: string, pat: string, from: nat)
    requires |content| < NPOS && pat != "" && NoneFrom(content, pat, from)
    ensures Find(content, pat, from) == NPOS
  {
  }

  lemma PastTheEnd(content: string, pat: string)
    requires |content| < NPOS && pat != ""
    ensures Find(content, pat, NPOS) == NPOS
  {
  }

  /** The quoted key. */
  function Quoted(key: string): string {
    "\"" + key + "\""
  }

  // ---- One field ----

  /** A number field is of invalid format exactly when its quoted key occurs nowhere. */
  lemma FieldTextMissing(content: string, key: string, stop: char)
    requires |content| < NPOS
    ensures FieldText(content, key, stop).Failed? <==> !Occurs(content, Quoted(key))
    ensures FieldText(content, key, stop).Failed? ==> FieldText(content, key, stop).result == InvalidFormat
  {
    hide Find, Add, Sub;
    var pos := Find(content, Quoted(key), 0);
    FoundIsFirst(content, Quoted(key), 0);
    if pos != NPOS {
      var colon := Find(content, ":", pos);
      FoundIsFirst(content, ":", pos);
      AfterColonInside(colon, content);
    }
  }

  /** The position after the colon, or the start when there is no colon. */
  lemma AfterColonInside(colon: u64, content: string)
    requires |content| < NPOS && (colon == NPOS || colon < |content|)
    ensures Add(colon, 1) == (if colon == NPOS then 0 else colon + 1) <= |content|
  {
    if colon == NPOS {
      assert Add(NPOS, 1) == 0;
    } else {
      AddOne(colon);
    }
  }

  /**
   * Otherwise its text runs from the first colon after the key's first occurrence to the first stop after
   * that colon, or to the end of the content.
   */
  lemma FieldTextFound(content: string, key: string, stop: char, pos: nat, colon: nat)
    requires |content| < NPOS && stop != ':'
    requires FirstFrom(content, Quoted(key), 0, pos) && FirstFrom(content, ":", pos, colon)
    ensures forall end: nat :: FirstFrom(content, [stop], colon, end) ==>
              colon < end < |content| && FieldText(content, key, stop) == Got(content[colon + 1..end])
    ensures NoneFrom(content, [stop], colon) ==>
              colon < |content| && FieldText(content, key, stop) == Got(content[colon + 1..])
  {
    hide Find, Add, Sub;
    FirstIsFound(content, Quoted(key), 0, pos);
    FirstIsFound(content, ":", pos, colon);
    assert At(content, ":", colon);
    assert content[colon] == content[colon..colon + 1][0] == ':';
    SubstrToEnd(content, colon);
    if NoneFrom(content, [stop], colon) {
      NoneIsFound(content, [stop], colon);
    }
    forall end: nat | FirstFrom(content, [stop], colon, end)
      ensures colon < end < |content| && FieldText(content, key, stop) == Got(content[colon + 1..end])
    {
      FirstIsFound(content, [stop], colon, end);
      assert At(content, [stop], end);
      assert content[end] == content[end..end + 1][0] == stop;
      SubstrBetween(content, colon, end);
    }
  }

  /** Without a colon after the key the unsigned arithmetic wraps twice, and the text is the whole content. */
  lemma FieldTextNoColon(content: string, key: string, stop: char, pos: nat)
    requires |content| < NPOS && FirstFrom(content, Quoted(key), 0, pos) && NoneFrom(content, ":", pos)
    ensures FieldText(content, key, stop) == Got(content)
  {
    FirstIsFound(content, Quoted(key), 0, pos);
    NoneIsFound(content, ":", pos);
    PastTheEnd(content, [stop]);
    WrapsTwice(content);
  }

  lemma WrapsTwice(content: string)
    requires |content| < NPOS
    ensures Substr(content, Add(NPOS, 1), Sub(Sub(NPOS, NPOS), 1)) == Value(content)
  {
    hide Add, Sub;
    NposWraps();
    assert content[0..] == content;
  }

  lemma NposWraps()
    ensures Add(NPOS, 1) == 0 && Sub(NPOS, NPOS) == 0 && Sub(0, 1) == NPOS
  {
  }

  /** The name is of invalid format exactly when its quoted key occurs nowhere. */
  lemma NameMissing(content: string)
    requires |content| < NPOS
    ensures NameField(content) == Failed(InvalidFormat) <==> !Occurs(content, Quoted("shm_name"))
  {
    hide Find, QuotedAfter;
    assert Quoted("shm_name") == "\"shm_name\"";
    FoundIsFirst(content, "\"shm_name\"", 0);
    QuotedAfterFails(content, Find(content, ":", Find(content, "\"shm_name\"", 0)));
  }

  lemma QuotedAfterFails(content: string, colon: nat)
    requires |content| < NPOS
    ensures QuotedAfter(content, colon).Failed? ==> QuotedAfter(content, colon).result != InvalidFormat
  {
    hide Find, Add, Sub;
  }

  /** The first two quotes at or after `from`. */
  ghost predicate QuotesAt(content: string, from: nat, quote1: nat, quote2: nat) {
    FirstFrom(content, "\"", from, quote1) && FirstFrom(content, "\"", quote1 + 1, quote2)
  }

  /** Otherwise it stands between the next two quotes after the colon, and less than two are a parse error. */
  lemma NameFound(content: string, pos: nat, colon: nat)
    requires |content| < NPOS && FirstFrom(content, Quoted("shm_name"), 0, pos) && FirstFrom(content, ":", pos, colon)
    ensures forall quote1: nat, quote2: nat ::
              QuotesAt(content, colon, quote1, quote2) ==> quote2 < |content| && NameField(content) == Got(content[quote1 + 1..quote2])
    ensures (forall quote1: nat :: FirstFrom(content, "\"", colon, quote1) ==> NoneFrom(content, "\"", quote1 + 1)) ==>
              NameField(content) == Failed(ParseError)
  {
    hide Find, QuotedAfter;
    assert Quoted("shm_name") == "\"shm_name\"";
    FirstIsFound(content, "\"shm_name\"", 0, pos);
    FirstIsFound(content, ":", pos, colon);
    TwoQuotes(content, colon);
  }

  lemma NameNoColon(content: string, pos: nat)
    requires |content| < NPOS && FirstFrom(content, Quoted("shm_name"), 0, pos) && NoneFrom(content, ":", pos)
    ensures NameField(content) == Failed(ParseError)
  {
    assert Quoted("shm_name") == "\"shm_name\"";
    FirstIsFound(content, "\"shm_name\"", 0, pos);
    NoneIsFound(content, ":", pos);
    PastTheEnd(content, "\"");
  }

  lemma TwoQuotes(content: string, colon: nat)
    requires |content| < NPOS
    ensures forall quote1: nat, quote2: nat ::
              QuotesAt(content, colon, quote1, quote2) ==> quote2 < |content| && QuotedAfter(content, colon) == Got(content[quote1 + 1..quote2])
    ensures (forall quote1: nat :: FirstFrom(content, "\"", colon, quote1) ==> NoneFrom(content, "\"", quote1 + 1)) ==>
              QuotedAfter(content, colon) == Failed(ParseError)
  {
    forall quote1: nat, quote2: nat | QuotesAt(content, colon, quote1, quote2)
      ensures quote2 < |content| && QuotedAfter(content, colon) == Got(content[quote1 + 1..quote2])
    {
      FirstIsFound(content, "\"", colon, quote1);
      FirstIsFound(content, "\"", quote1 + 1, quote2);
      QuotedAfterIs(content, colon);
    }
    if forall quote1: nat :: FirstFrom(content, "\"", colon, quote1) ==> NoneFrom(content, "\"", quote1 + 1) {
      LessThanTwoQuotes(content, colon);
    }
  }

  lemma LessThanTwoQuotes(content: string, colon: nat)
    requires |content| < NPOS
    requires forall quote1: nat :: FirstFrom(content, "\"", colon, quote1) ==> NoneFrom(content, "\"", quote1 + 1)
    ensures QuotedAfter(content, colon) == Failed(ParseError)
  {
    hide Find, Sub, Substr;
    var quote1 := Find(content, "\"", colon);
    FoundIsFirst(content, "\"", colon);
    if quote1 != NPOS {
      AddOne(quote1);
      NoneIsFound(content, "\"", quote1 + 1);
    }
  }

  // ---- The whole text ----

  /** What the reader makes of number line `k`. */
  function NumberField(content: string, k: nat): (r: Attempt<int>)
    requires |content| < NPOS && k < 6
  {
    if k < 3 then
      match UnsignedField(content, Key(k)) case Got(n) => Got(n) case Failed(result) => Failed(result)
    else
      match SignedField(content, Key(k), if k == 5 then '}' else ',') case Got(n) => Got(n) case Failed(result) => Failed(result)
  }

  /** A number line fails with an exception when its key is there and its text does not convert. */
  lemma NumberFieldExactly(content: string, k: nat)
    requires |content| < NPOS && k < 6
    ensures var text := FieldText(content, Key(k), if k == 5 then '}' else ',');
            NumberField(content, k) ==
              if text.Failed? then Failed(InvalidFormat)
              else match ReadNumber(text.value)
                case Throws => Failed(Exception)
                case Value(n) =>
                  if k < 3 then
                    if -0x1_0000_0000_0000_0000 < n < 0x1_0000_0000_0000_0000 then Got(n % 0x1_0000_0000_0000_0000) else Failed(Exception)
                  else if -0x8000_0000_0000_0000 <= n < 0x8000_0000_0000_0000 then Got(n) else Failed(Exception)
    ensures KeyMissing(content, k) <==> NumberField(content, k) == Failed(InvalidFormat)
  {
    FieldTextMissing(content, Key(k), ',');
    FieldTextMissing(content, Key(k), '}');
    hide FieldText, ReadNumber, Key;
  }

  ghost predicate KeyMissing(content: string, k: nat)
    requires k < 6
  {
    !Occurs(content, Quoted(Key(k)))
  }

  lemma EmptyText()
    ensures Parse("") == ParseError
  {
  }

  /** All fields before number line `k` are read. */
  ghost predicate ReadBefore(content: string, k: nat)
    requires |content| < NPOS && k <= 6
  {
    content != "" && NameField(content).Got? && forall j: nat :: j < k ==> NumberField(content, j).Got?
  }

  /** What the record holds for number line `j` once its field was read; a process id is cast to 32 bits. */
  function Stored(content: string, j: nat): int
    requires |content| < NPOS && j < 6 && NumberField(content, j).Got?
  {
    var n := NumberField(content, j).value;
    if j == 3 then ToPid(n) else n
  }

  /** A name that cannot be read decides the answer and leaves the whole record alone. */
  lemma NameFails(content: string, metadata0: CoordinationMetadata)
    requires |content| < NPOS && content != "" && NameField(content).Failed?
    ensures Parse(content) == NameField(content).result && Filled(content, metadata0) == metadata0
  {
    hide NameField, UnsignedField, SignedField;
  }

  /** The first number line that fails decides the answer; the record keeps its old values from there on. */
  lemma NumberFailsAt(content: string, metadata0: CoordinationMetadata, k: nat)
    requires |content| < NPOS && k < 6 && ReadBefore(content, k) && NumberField(content, k).Failed?
    ensures Parse(content) == NumberField(content, k).result
    ensures var filled := Filled(content, metadata0);
            && filled.shmName == NameField(content).value
            && forall j: nat :: j < 6 ==> Number(filled, j) == if j < k then Stored(content, j) else Number(metadata0, j)
  {
    LineByLine(content);
    hide NameField, UnsignedField, SignedField, ToPid, NumberField;
    assert k > 0 ==> NumberField(content, 0).Got?;
    assert k > 1 ==> NumberField(content, 1).Got?;
    assert k > 2 ==> NumberField(content, 2).Got?;
    assert k > 3 ==> NumberField(content, 3).Got?;
    assert k > 4 ==> NumberField(content, 4).Got?;
  }

  /** The six number lines, by their keys. */
  ghost predicate LinesAre(content: string)
    requires |content| < NPOS
  {
    && SameAttempt(NumberField(content, 0), UnsignedField(content, "shm_size"))
    && SameAttempt(NumberField(content, 1), UnsignedField(content, "queue_capacity"))
    && SameAttempt(NumberField(content, 2), UnsignedField(content, "payload_size"))
    && SameAttempt(NumberField(content, 3), SignedField(content, "producer_pid", ','))
    && SameAttempt(NumberField(content, 4), SignedField(content, "creation_timestamp", ','))
    && SameAttempt(NumberField(content, 5), SignedField(content, "last_modify_timestamp", '}'))
  }

  predicate SameAttempt(a: Attempt<int>, b: Attempt<int>) {
    a == b
  }

  lemma LineByLine(content: string)
    requires |content| < NPOS
    ensures LinesAre(content)
  {
    hide UnsignedField, SignedField;
  }

  /** With every field read the answer is success and the record holds them all. */
  lemma AllRead(content: string, metadata0: CoordinationMetadata)
    requires |content| < NPOS && ReadBefore(content, 6)
    ensures Parse(content).Success? && Parse(content).metadata == Filled(content, metadata0)
    ensures var filled := Filled(content, metadata0);
            filled.shmName == NameField(content).value && forall j: nat :: j < 6 ==> Number(filled, j) == Stored(content, j)
  {
    LineByLine(content);
    hide NameField, UnsignedField, SignedField, ToPid, NumberField;
    assert NumberField(content, 0).Got? && NumberField(content, 1).Got? && NumberField(content, 2).Got?;
    assert NumberField(content, 3).Got? && NumberField(content, 4).Got? && NumberField(content, 5).Got?;
  }

  /** A missing key gives an invalid format, and the record keeps its old values from its line on. */
  lemma MissingKey(content: string, metadata0: CoordinationMetadata, k: nat)
    requires |content| < NPOS && k < 6 && ReadBefore(content, k) && !Occurs(content, Quoted(Key(k)))
    ensures Parse(content) == InvalidFormat
    ensures var filled := Filled(content, metadata0);
            forall j: nat :: k <= j < 6 ==> Number(filled, j) == Number(metadata0, j)
  {
    NumberFieldExactly(content, k);
    hide NameField, NumberField, Filled, Parse, Key;
    NumberFailsAt(content, metadata0, k);
  }

  lemma MissingName(content: string, metadata0: CoordinationMetadata)
    requires |content| < NPOS && content != "" && !Occurs(content, Quoted("shm_name"))
    ensures Parse(content) == InvalidFormat && Filled(content, metadata0) == metadata0
  {
    NameMissing(content);
    NameFails(content, metadata0);
  }

  /** A successful read has seen all seven keys. */
  lemma SuccessNeedsAllKeys(content: string)
    requires |content| < NPOS && Parse(content).Success?
    ensures Occurs(content, Quoted("shm_name")) && Occurs(content, Quoted("shm_size"))
    ensures Occurs(content, Quoted("queue_capacity")) && Occurs(content, Quoted("payload_size"))
    ensures Occurs(content, Quoted("producer_pid")) && Occurs(content, Quoted("creation_timestamp"))
    ensures Occurs(content, Quoted("last_modify_timestamp"))
  {
    hide NameField, FieldText, Occurs, Quoted, UnsignedField, SignedField, ToPid;
    NameMissing(content);
    NeededKey(content, "shm_size", ',');
    NeededKey(content, "queue_capacity", ',');
    NeededKey(content, "payload_size", ',');
    NeededKey(content, "producer_pid", ',');
    NeededKey(content, "creation_timestamp", ',');
    NeededKey(content, "last_modify_timestamp", '}');
  }

  lemma NeededKey(content: string, key: string, stop: char)
    requires |content| < NPOS
    ensures UnsignedField(content, key).Got? && stop == ',' ==> Occurs(content, Quoted(key))
    ensures SignedField(content, key, stop).Got? ==> Occurs(content, Quoted(key))
  {
    FieldTextMissing(content, key, stop);
    hide FieldText, ReadNumber;
  }

  /** The cast of a 64-bit value to a process id: the one value in range that differs by a multiple of 2^32. */
  lemma ToPidExactly(n: int, p: pid)
    ensures p == ToPid(n) <==> (n - p) % 0x1_0000_0000 == 0
  {
  }
}
