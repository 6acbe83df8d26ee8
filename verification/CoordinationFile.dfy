/** The coordination file: the text Create writes and the find-based reader, and when they undo each other. */
module CoordinationFile {
  import opened Word64
  import opened Text

  type pid = n: int | -0x8000_0000 <= n < 0x8000_0000
  type seconds = n: int | INT64_MIN <= n <= INT64_MAX

  datatype CoordinationMetadata = CoordinationMetadata(
    shmName: string,
    shmSize: u64,
    queueCapacity: u64,
    payloadSize: u64,
    producerPid: pid,
    creationTime: seconds,
    modifyTime: seconds)

  // ---- Writing ----

  function StringLine(key: string, value: string): string {
    "  \"" + key + "\": \"" + value + "\",\n"
  }

  function NumberLine(key: string, n: int, end: string): string {
    "  \"" + key + "\": " + PrintInt(n) + end
  }

  /** The text of the file; the version field holds the shared-memory name. */
  function Render(m: CoordinationMetadata): string {
    "{\n" + (StringLine("version", m.shmName) + (StringLine("shm_name", m.shmName) + Numbers(m)))
  }

  function Numbers(m: CoordinationMetadata): string {
    NumberLine("shm_size", m.shmSize, ",\n") + (
      NumberLine("queue_capacity", m.queueCapacity, ",\n") + (
        NumberLine("payload_size", m.payloadSize, ",\n") + (
          NumberLine("producer_pid", m.producerPid, ",\n") + (
            NumberLine("creation_timestamp", m.creationTime, ",\n") + (
              NumberLine("last_modify_timestamp", m.modifyTime, "\n") + "}\n")))))
  }

  lemma Regroup(a: string, b: string, c: string)
    ensures a + (b + c) == a + b + c
  {
  }

  lemma Nested(a: string, b: string, c: string, d: string, e: string)
    ensures a + (b + (c + (d + e))) == a + b + c + d + e
  {
  }

  /** The text of the file, line by line. */
  lemma RenderedText(m: CoordinationMetadata)
    ensures Render(m) ==
              "{\n"
              + ("  \"" + "version" + "\": \"" + m.shmName + "\",\n")
              + ("  \"" + "shm_name" + "\": \"" + m.shmName + "\",\n")
              + ("  \"" + "shm_size" + "\": " + PrintInt(m.shmSize) + ",\n")
              + ("  \"" + "queue_capacity" + "\": " + PrintInt(m.queueCapacity) + ",\n")
              + ("  \"" + "payload_size" + "\": " + PrintInt(m.payloadSize) + ",\n")
              + ("  \"" + "producer_pid" + "\": " + PrintInt(m.producerPid) + ",\n")
              + ("  \"" + "creation_timestamp" + "\": " + PrintInt(m.creationTime) + ",\n")
              + ("  \"" + "last_modify_timestamp" + "\": " + PrintInt(m.modifyTime) + "\n")
              + "}\n"
  {
    hide PrintInt;
    var version := StringLine("version", m.shmName);
    var name := StringLine("shm_name", m.shmName);
    var size := NumberLine("shm_size", m.shmSize, ",\n");
    var capacity := NumberLine("queue_capacity", m.queueCapacity, ",\n");
    var payload := NumberLine("payload_size", m.payloadSize, ",\n");
    var producer := NumberLine("producer_pid", m.producerPid, ",\n");
    var created := NumberLine("creation_timestamp", m.creationTime, ",\n");
    var modified := NumberLine("last_modify_timestamp", m.modifyTime, "\n");
    var tail := producer + (created + (modified + "}\n"));
    Nested("{\n", version, name, size, capacity + (payload + tail));
    Nested("{\n" + version + name + size, capacity, payload, producer, created + (modified + "}\n"));
    Nested("{\n" + version + name + size + capacity + payload, producer, created, modified, "}\n");
  }

  method Create(metadata: CoordinationMetadata) returns (json: string)
    ensures json == Render(metadata)
  {
    hide StringLine, NumberLine;
    var version := StringLine("version", metadata.shmName);
    var name := StringLine("shm_name", metadata.shmName);
    var size := NumberLine("shm_size", metadata.shmSize, ",\n");
    var capacity := NumberLine("queue_capacity", metadata.queueCapacity, ",\n");
    var payload := NumberLine("payload_size", metadata.payloadSize, ",\n");
    var producer := NumberLine("producer_pid", metadata.producerPid, ",\n");
    var created := NumberLine("creation_timestamp", metadata.creationTime, ",\n");
    var modified := NumberLine("last_modify_timestamp", metadata.modifyTime, "\n");
    json := "{\n";
    json := json + version + name;
    Regroup("{\n", version, name + Numbers(metadata));
    Regroup("{\n" + version, name, Numbers(metadata));
    ghost var rest := payload + (producer + (created + (modified + "}\n")));
    Regroup(json, size, capacity + rest);
    json := json + size;
    Regroup(json, capacity, rest);
    json := json + capacity;
    Regroup(json, payload, producer + (created + (modified + "}\n")));
    json := json + payload;
    Regroup(json, producer, created + (modified + "}\n"));
    json := json + producer;
    Regroup(json, created, modified + "}\n");
    json := json + created;
    Regroup(json, modified, "}\n");
    json := json + modified + "}\n";
  }

  // ---- Reading ----

  datatype ReadResult = Success(metadata: CoordinationMetadata) | InvalidFormat | ParseError | Exception

  datatype Attempt<+T> = Got(value: T) | Failed(result: ReadResult) {
    predicate IsFailure() { Failed? }
    function PropagateFailure<U>(): Attempt<U> requires Failed? { Failed(result) }
    function Extract(): T requires Got? { value }
  }

  /** The text between the first colon after the key and the first `stop` after that colon. */
  function FieldText(content: string, key: string, stop: char): (r: Attempt<string>)
    requires |content| < NPOS
    ensures r.Failed? ==> !r.result.Success?
  {
    var pos := Find(content, "\"" + key + "\"", 0);
    if pos == NPOS then Failed(InvalidFormat)
    else
      var colon := Find(content, ":", pos);
      var end := Find(content, [stop], colon);
      match Substr(content, Add(colon, 1), Sub(Sub(end, colon), 1))
      case Throws => Failed(Exception)
      case Value(text) => Got(text)
  }

  function UnsignedField(content: string, key: string): (r: Attempt<u64>)
    requires |content| < NPOS
    ensures r.Failed? ==> !r.result.Success?
  {
    var text :- FieldText(content, key, ',');
    match Stoull(text)
    case Throws => Failed(Exception)
    case Value(n) => Got(n)
  }

  function SignedField(content: string, key: string, stop: char): (r: Attempt<seconds>)
    requires |content| < NPOS
    ensures r.Failed? ==> !r.result.Success?
  {
    var text :- FieldText(content, key, stop);
    match Stoll(text)
    case Throws => Failed(Exception)
    case Value(n) => Got(n)
  }

  /** The text between the next two quotes. */
  function QuotedAfter(content: string, colon: nat): (r: Attempt<string>)
    requires |content| < NPOS
    ensures r.Failed? ==> !r.result.Success?
  {
    var quote1 := Find(content, "\"", colon);
    var quote2 := Find(content, "\"", Add(quote1, 1));
    if quote1 == NPOS || quote2 == NPOS then Failed(ParseError)
    else match Substr(content, Add(quote1, 1), Sub(Sub(quote2, quote1), 1))
      case Throws => Failed(Exception)
      case Value(name) => Got(name)
  }

  function NameField(content: string): (r: Attempt<string>)
    requires |content| < NPOS
    ensures r.Failed? ==> !r.result.Success?
  {
    var pos := Find(content, "\"shm_name\"", 0);
    if pos == NPOS then Failed(InvalidFormat) else QuotedAfter(content, Find(content, ":", pos))
  }

  /** `static_cast<pid_t>` of a 64-bit value. */
  function ToPid(n: int): pid {
    (n + 0x8000_0000) % 0x1_0000_0000 - 0x8000_0000
  }

  function Fields(content: string): (r: Attempt<CoordinationMetadata>)
    requires |content| < NPOS
    ensures r.Failed? ==> !r.result.Success?
  {
    var name :- NameField(content);
    var size :- UnsignedField(content, "shm_size");
    var capacity :- UnsignedField(content, "queue_capacity");
    var payload :- UnsignedField(content, "payload_size");
    var producer :- SignedField(content, "producer_pid", ',');
    var created :- SignedField(content, "creation_timestamp", ',');
    var modified :- SignedField(content, "last_modify_timestamp", '}');
    Got(CoordinationMetadata(name, size, capacity, payload, ToPid(producer), created, modified))
  }

  function Parse(content: string): ReadResult
    requires |content| < NPOS
  {
    if content == "" then ParseError
    else match Fields(content)
      case Got(metadata) => Success(metadata)
      case Failed(result) => result
  }

  /** The fields before the first one that fails are stored; the others keep their old values. */
  function Filled(content: string, metadata0: CoordinationMetadata): CoordinationMetadata
    requires |content| < NPOS
  {
    var name := NameField(content);
    if name.Failed? then metadata0 else
    var with1 := metadata0.(shmName := name.value);
    var size := UnsignedField(content, "shm_size");
    if size.Failed? then with1 else
    var with2 := with1.(shmSize := size.value);
    var capacity := UnsignedField(content, "queue_capacity");
    if capacity.Failed? then with2 else
    var with3 := with2.(queueCapacity := capacity.value);
    var payload := UnsignedField(content, "payload_size");
    if payload.Failed? then with3 else
    var with4 := with3.(payloadSize := payload.value);
    var producer := SignedField(content, "producer_pid", ',');
    if producer.Failed? then with4 else
    var with5 := with4.(producerPid := ToPid(producer.value));
    var created := SignedField(content, "creation_timestamp", ',');
    if created.Failed? then with5 else
    var with6 := with5.(creationTime := created.value);
    var modified := SignedField(content, "last_modify_timestamp", '}');
    if modified.Failed? then with6 else with6.(modifyTime := modified.value)
  }

  /** A successful read leaves nothing of the old values. */
  lemma SuccessFillsAll(content: string, metadata0: CoordinationMetadata)
    requires |content| < NPOS && Parse(content).Success?
    ensures Filled(content, metadata0) == Parse(content).metadata
  {
    hide NameField, UnsignedField, SignedField, ToPid;
  }

  /** `metadata0` is what the caller's record held before. */
  method Read(content: string, metadata0: CoordinationMetadata) returns (r: ReadResult, metadata: CoordinationMetadata)
    requires |content| < NPOS
    ensures r == Parse(content) && metadata == Filled(content, metadata0)
  {
    hide UnsignedField, SignedField, ToPid;
    metadata := metadata0;
    if content == "" {
      return ParseError, metadata;
    }
    var pos := Find(content, "\"shm_name\"", 0);
    if pos == NPOS {
      return InvalidFormat, metadata;
    }
    var colon := Find(content, ":", pos);
    var quote1 := Find(content, "\"", colon);
    var quote2 := Find(content, "\"", Add(quote1, 1));
    if quote1 == NPOS || quote2 == NPOS {
      return ParseError, metadata;
    }
    var name := Substr(content, Add(quote1, 1), Sub(Sub(quote2, quote1), 1));
    if name.Throws? {
      return Exception, metadata;
    }
    metadata := metadata.(shmName := name.value);
    assert NameField(content) == Got(name.value);
    hide NameField, Find, Substr;
    var size := UnsignedField(content, "shm_size");
    if size.Failed? {
      return size.result, metadata;
    }
    metadata := metadata.(shmSize := size.value);
    var capacity := UnsignedField(content, "queue_capacity");
    if capacity.Failed? {
      return capacity.result, metadata;
    }
    metadata := metadata.(queueCapacity := capacity.value);
    var payload := UnsignedField(content, "payload_size");
    if payload.Failed? {
      return payload.result, metadata;
    }
    metadata := metadata.(payloadSize := payload.value);
    var producer := SignedField(content, "producer_pid", ',');
    if producer.Failed? {
      return producer.result, metadata;
    }
    metadata := metadata.(producerPid := ToPid(producer.value));
    var created := SignedField(content, "creation_timestamp", ',');
    if created.Failed? {
      return created.result, metadata;
    }
    metadata := metadata.(creationTime := created.value);
    var modified := SignedField(content, "last_modify_timestamp", '}');
    if modified.Failed? {
      return modified.result, metadata;
    }
    metadata := metadata.(modifyTime := modified.value);
    r := Success(metadata);
  }
}
