/**
  The `config` table: a map from a closed set of names to stored values, the
  queue's pause flag and its last-seen index reference read from it, and the
  git object id that reference holds.
 */
module Config {
  import opened Common

  /** The two entries of `ConfigName` that the build queue uses. */
  datatype ConfigName = QueueLocked | LastSeenIndexReference

  /** A stored value: a JSON boolean or a JSON string. */
  datatype ConfigValue = Bool(b: bool) | Text(s: string)

  type ConfigMap = map<ConfigName, ConfigValue>

  type Nibble = x: int | 0 <= x < 16

  /** A git object id: 40 hexadecimal digits (20 bytes). */
  type Oid = d: seq<Nibble> | |d| == 40 witness seq(40, _ => 0)

  /** The value of one hexadecimal digit, in either case. */
  function HexValue(c: char): (r: Option<Nibble>)
    ensures r.Some? <==> ('0' <= c <= '9' || 'a' <= c <= 'f' || 'A' <= c <= 'F')
  {
    if '0' <= c <= '9' then Some(c as int - '0' as int)
    else if 'a' <= c <= 'f' then Some(c as int - 'a' as int + 10)
    else if 'A' <= c <= 'F' then Some(c as int - 'A' as int + 10)
    else None
  }

  /** The lower-case hexadecimal digit for n. */
  function HexDigit(n: Nibble): (c: char)
    ensures HexValue(c) == Some(n)
  {
    if n < 10 then ('0' as int + n) as char else ('a' as int + n - 10) as char
  }

  ghost predicate AllHex(text: string) {
    forall i :: 0 <= i < |text| ==> HexValue(text[i]).Some?
  }

  /** The digits of text, if all of them are hexadecimal. */
  function DecodeHex(text: string): (r: Option<seq<Nibble>>)
    ensures r.Some? ==> |r.value| == |text|
  {
    if text == [] then Some([])
    else match (HexValue(text[0]), DecodeHex(text[1..]))
      case (Some(d), Some(rest)) => Some([d] + rest)
      case _ => None
  }

  /** Decoding succeeds exactly on all-hexadecimal text. */
  lemma {:induction false} DecodeHexSucceeds(text: string)
    ensures DecodeHex(text).Some? <==> AllHex(text)
  {
    if text != [] {
      DecodeHexSucceeds(text[1..]);
      assert forall i :: 1 <= i < |text| ==> text[i] == text[1..][i - 1];
    }
  }

  /** Lower-case hexadecimal text of a digit sequence. */
  function EncodeHex(d: seq<Nibble>): (text: string)
    ensures |text| == |d|
  {
    seq(|d|, i requires 0 <= i < |d| => HexDigit(d[i]))
  }

  lemma {:induction false} DecodeEncodeHex(d: seq<Nibble>)
    ensures DecodeHex(EncodeHex(d)) == Some(d)
  {
    if d != [] {
      assert EncodeHex(d)[1..] == EncodeHex(d[1..]);
      DecodeEncodeHex(d[1..]);
      assert d == [d[0]] + d[1..];
    }
  }

  /**
    `Oid::from_str`: one to forty hexadecimal digits of either case; digits
    missing at the end are zero.
   */
  function ParseOid(text: string): (r: Option<Oid>)
    ensures r.Some? <==> 1 <= |text| <= 40 && AllHex(text)
  {
    DecodeHexSucceeds(text);
    if |text| == 0 || |text| > 40 then None
    else match DecodeHex(text)
      case None => None
      case Some(d) =>
        var oid: Oid := d + seq(40 - |text|, _ => 0);
        Some(oid)
  }

  /** `Oid::to_string`: forty lower-case hexadecimal digits. */
  function OidText(oid: Oid): (text: string)
    ensures |text| == 40
  {
    EncodeHex(oid)
  }

  /** An id read back from its text is the same id. */
  lemma OidRoundTrip(oid: Oid)
    ensures ParseOid(OidText(oid)) == Some(oid)
  {
    DecodeEncodeHex(oid);
    assert oid + seq(0, _ => 0) == oid;
  }

  /**
    `get_config::<T>` for a typed read: absent entries read as `None`, an entry of
    the wrong type is an error, every other entry is its value.
   */
  function ReadBool(config: ConfigMap, name: ConfigName): (r: Result<Option<bool>>)
    ensures r == Ok(None) <==> name !in config
    ensures r.Err? <==> name in config && config[name].Text?
    ensures forall b :: r == Ok(Some(b)) <==> name in config && config[name] == Bool(b)
  {
    if name !in config then Ok(None)
    else match config[name]
      case Bool(b) => Ok(Some(b))
      case Text(_) => Err(ConfigTypeMismatch)
  }

  function ReadText(config: ConfigMap, name: ConfigName): (r: Result<Option<string>>)
    ensures r == Ok(None) <==> name !in config
    ensures r.Err? <==> name in config && config[name].Bool?
    ensures forall text :: r == Ok(Some(text)) <==> name in config && config[name] == Text(text)
  {
    if name !in config then Ok(None)
    else match config[name]
      case Text(s) => Ok(Some(s))
      case Bool(_) => Err(ConfigTypeMismatch)
  }

  /** `is_locked`: the stored pause flag, false when it was never set. */
  function IsLocked(config: ConfigMap): (r: Result<bool>)
    ensures QueueLocked !in config ==> r == Ok(false)
    ensures r.Err? <==> QueueLocked in config && config[QueueLocked].Text?
    ensures r.Ok? ==> (r.value <==> QueueLocked in config && config[QueueLocked] == Bool(true))
  {
    match ReadBool(config, QueueLocked)
    case Err(e) => Err(e)
    case Ok(flag) => Ok(if flag.Some? then flag.value else false)
  }

  /** `last_seen_reference`: the stored cursor, if any, which must parse as an object id. */
  function LastSeenReference(config: ConfigMap): (r: Result<Option<Oid>>)
    ensures LastSeenIndexReference !in config ==> r == Ok(None)
    ensures LastSeenIndexReference in config && config[LastSeenIndexReference].Bool? ==> r == Err(ConfigTypeMismatch)
    ensures LastSeenIndexReference in config && config[LastSeenIndexReference].Text? ==>
      (r.Ok? <==> ParseOid(config[LastSeenIndexReference].s).Some?)
    ensures LastSeenIndexReference in config && config[LastSeenIndexReference].Text? && r.Ok? ==>
      r.value == Some(ParseOid(config[LastSeenIndexReference].s).value)
  {
    match ReadText(config, LastSeenIndexReference)
    case Err(e) => Err(e)
    case Ok(None) => Ok(None)
    case Ok(Some(text)) =>
      match ParseOid(text)
      case None => Err(InvalidOid(text))
      case Some(oid) => Ok(Some(oid))
  }

  /** `lock` / `unlock` then `is_locked` reads back the flag that was written. */
  lemma LockRoundTrip(config: ConfigMap, locked: bool)
    ensures IsLocked(config[QueueLocked := Bool(locked)]) == Ok(locked)
  {
  }

  /** `set_last_seen_reference(oid)` then `last_seen_reference` gives back `oid`. */
  lemma ReferenceRoundTrip(config: ConfigMap, oid: Oid)
    ensures LastSeenReference(config[LastSeenIndexReference := Text(OidText(oid))]) == Ok(Some(oid))
  {
    OidRoundTrip(oid);
  }

  /** Writing one entry never changes what the other reads. */
  lemma EntriesIndependent(config: ConfigMap, v: ConfigValue)
    ensures IsLocked(config[LastSeenIndexReference := v]) == IsLocked(config)
    ensures LastSeenReference(config[QueueLocked := v]) == LastSeenReference(config)
  {
  }
}
