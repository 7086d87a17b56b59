/** The NUL-terminated string helpers of utils.h and the topic they build. */
module CStrings {

  import opened Lists

  /** A C string: the characters before the terminating NUL. The terminator
      itself is never part of the value, so no character of it is NUL. */
  type CString = s: string | '\0' !in s

  /** The character a C scan reads at index `i`: the terminator at `|s|`. */
  function At(s: CString, i: nat): char
    requires i <= |s|
  {
    if i < |s| then s[i] else '\0'
  }

  /** `n` is the length of the longest common prefix of `a` and `b`. */
  predicate IsCommonPrefixLength(a: string, b: string, n: nat)
  {
    && n <= |a| && n <= |b|
    && a[..n] == b[..n]
    && (n == |a| || n == |b| || a[n] != b[n])
  }

  /** The length of the longest common prefix of two C strings; the reference
      meaning of prefix_length. */
  function PrefixLength(what: CString, prefix: CString): (n: nat)
    ensures IsCommonPrefixLength(what, prefix, n)
  {
    if |what| == 0 || |prefix| == 0 || what[0] != prefix[0] then 0
    else
      var n' := PrefixLength(what[1..], prefix[1..]);
      assert what[..n' + 1] == [what[0]] + what[1..][..n'];
      assert prefix[..n' + 1] == [prefix[0]] + prefix[1..][..n'];
      n' + 1
  }

  /** Only one length is the longest common prefix. */
  lemma CommonPrefixLengthUnique(a: string, b: string, n: nat, m: nat)
    requires IsCommonPrefixLength(a, b, n) && IsCommonPrefixLength(a, b, m)
    ensures n == m
  {
  }

  /** prefix_length as written: scan both strings while the characters agree
      and the first has not reached its terminator. */
  method ScanPrefix(what: CString, prefix: CString) returns (i: nat)
    ensures i == PrefixLength(what, prefix)
  {
    i := 0;
    while At(what, i) == At(prefix, i) && At(what, i) != '\0'
      invariant i <= |what| && i <= |prefix|
      invariant what[..i] == prefix[..i]
      decreases |what| - i
    {
      assert what[..i + 1] == what[..i] + [what[i]];
      assert prefix[..i + 1] == prefix[..i] + [prefix[i]];
      i := i + 1;
    }
    CommonPrefixLengthUnique(what, prefix, i, PrefixLength(what, prefix));
  }

  /** starts_with: the scan stops on the terminator of `prefix`. */
  function StartsWith(what: CString, prefix: CString): (b: bool)
    ensures b <==> prefix <= what
  {
    var n := PrefixLength(what, prefix);
    assert n < |prefix| ==> prefix[n] != '\0';
    At(prefix, n) == '\0'
  }

  /** equal_strings: the scan stops on the terminators of both strings. */
  function EqualStrings(a: CString, b: CString): (r: bool)
    ensures r <==> a == b
  {
    var n := PrefixLength(a, b);
    assert n < |a| ==> a[n] != '\0';
    assert n < |b| ==> b[n] != '\0';
    At(a, n) == '\0' && At(b, n) == '\0'
  }

  /** The characters of `s` other than `omit`, in their order. */
  function Omit(s: CString, omit: char): (r: CString)
    ensures |r| <= |s|
    ensures omit !in r
    ensures forall c :: c in r ==> c in s
    ensures omit !in s ==> r == s
  {
    if |s| == 0 then []
    else (if s[0] == omit then [] else [s[0]]) + Omit(s[1..], omit)
  }

  /** Dropping characters distributes over concatenation: the order of the
      kept characters is the order in the source. */
  lemma {:induction false} OmitAppend(a: CString, b: CString, omit: char)
    ensures Omit(a + b, omit) == Omit(a, omit) + Omit(b, omit)
  {
    if |a| == 0 {
      assert a + b == b;
    } else {
      var head: CString := if a[0] == omit then [] else [a[0]];
      var ab: CString := a + b;
      assert ab[0] == a[0];
      assert ab[1..] == a[1..] + b;
      OmitAppend(a[1..], b, omit);
      calc {
        Omit(ab, omit);
        head + Omit(ab[1..], omit);
        head + (Omit(a[1..], omit) + Omit(b, omit));
        (head + Omit(a[1..], omit)) + Omit(b, omit);
      }
    }
  }

  /** append_to_string: copy `s` after `d`, skipping every `omit` character,
      terminate, and return the position of the new terminator. `d` stands
      for the text already in the buffer before the write pointer. */
  method AppendToString(d: CString, s: CString, omit: char := '\0') returns (r: CString, end: nat)
    ensures r == d + Omit(s, omit)
    ensures end == |r|
  {
    r := d;
    var k := 0;
    while At(s, k) != '\0'
      invariant k <= |s|
      invariant r == d + Omit(s[..k], omit)
      decreases |s| - k
    {
      assert s[..k + 1] == s[..k] + [s[k]];
      OmitAppend(s[..k], [s[k]], omit);
      if s[k] != omit {
        r := r + [s[k]];
      }
      k := k + 1;
    }
    assert s[..k] == s;
    end := |r|;
  }

  /** The MQTT command topic of a device. */
  function Topic(name: CString): CString
  {
    "cmnd/" + name + "/Power"
  }

  /** Reads the device name back out of a command topic. */
  function TopicDevice(topic: CString): (r: Option<CString>)
    ensures r.Some? ==> |r.value| + 11 == |topic|
  {
    if |topic| >= 11 && topic[..5] == "cmnd/" && topic[|topic| - 6..] == "/Power"
    then Some(topic[5..|topic| - 6])
    else None
  }

  /** The topic format round-trips: the device name is recovered verbatim. */
  lemma TopicRoundTrip(name: CString)
    ensures TopicDevice(Topic(name)) == Some(name)
  {
  }

  /** Distinct devices get distinct topics. */
  lemma TopicInjective(a: CString, b: CString)
    ensures Topic(a) == Topic(b) ==> a == b
  {
    TopicRoundTrip(a);
    TopicRoundTrip(b);
  }

  /** Capacity of topic_buffer, terminator included. */
  const TopicBufferSize: nat := 128

  /** The three chained append_to_string calls of Switch::check, starting
      from an emptied topic_buffer. */
  method ComposeTopic(name: CString) returns (topic: CString)
    requires |name| + 11 < TopicBufferSize
    ensures topic == "cmnd/" + name + "/Power"
    ensures TopicDevice(topic) == Some(name)
    ensures |topic| < TopicBufferSize
  {
    var end: nat;
    var cmnd: CString := "cmnd/";
    var power: CString := "/Power";
    assert Omit(cmnd, '\0') == cmnd;
    assert Omit(name, '\0') == name;
    assert Omit(power, '\0') == power;
    topic, end := AppendToString("", cmnd);
    assert topic == cmnd;
    topic, end := AppendToString(topic, name);
    topic, end := AppendToString(topic, power);
    TopicRoundTrip(name);
  }
}
