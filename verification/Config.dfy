/**
 * The compile-time constants of Lib/SharedConfig.h and the value types every
 * other module speaks about: bytes, C strings and socket handles.
 */
module Config {

  const MAX_WORKERS: nat := 8
  const MAX_MESSAGE_SIZE: nat := 1024
  const MAX_KEY_SIZE: nat := 256
  const MAX_VALUE_SIZE: nat := 256
  const MAX_ADDRESS_SIZE: nat := 255
  const QUEUE_CAPACITY: nat := 64
  const BUCKET_COUNT: nat := 32

  type Byte = b: int | 0 <= b < 256
  type Bytes = seq<Byte>
  type Uint32 = n: int | 0 <= n < 0x1_0000_0000

  /** A C string is modelled by its characters, without the terminating NUL. */
  predicate IsCString(s: Bytes) {
    0 !in s
  }

  /** strncpy_s into a 256-byte array with _TRUNCATE. */
  function Truncate(address: Bytes): (kept: Bytes)
    ensures kept <= address
    ensures |address| <= MAX_ADDRESS_SIZE ==> kept == address
    ensures |address| > MAX_ADDRESS_SIZE ==> |kept| == MAX_ADDRESS_SIZE
  {
    if |address| > MAX_ADDRESS_SIZE then address[..MAX_ADDRESS_SIZE] else address
  }

  datatype Option<+T> = None | Some(value: T)

  datatype SocketHandle = Invalid | Handle(n: nat)

  /** A uint32_t passed where an int is expected. */
  function AsInt(n: Uint32): (i: int)
    ensures -0x8000_0000 <= i < 0x8000_0000 && i % 0x1_0000_0000 == n
  {
    if n < 0x8000_0000 then n else n - 0x1_0000_0000
  }

  ghost predicate Distinct<T>(s: seq<T>) {
    forall i, j :: 0 <= i < j < |s| ==> s[i] != s[j]
  }

  function Delete<T>(s: seq<T>, k: nat): seq<T>
    requires k < |s|
  {
    s[..k] + s[k + 1..]
  }

  lemma DeleteLater<T>(first: T, rest: seq<T>, k: nat)
    requires k < |rest|
    ensures Delete([first] + rest, k + 1) == [first] + Delete(rest, k)
  {
    var whole := [first] + rest;
    assert whole[..k + 1] == [first] + rest[..k] && whole[k + 2..] == rest[k + 1..];
  }

  lemma DeleteFirst<T>(first: T, rest: seq<T>)
    ensures Delete([first] + rest, 0) == rest
  {
  }

  lemma Front<T>(s: seq<T>, x: T)
    ensures (s + [x])[..|s|] == s
  {
  }

  lemma Regroup<T>(a: seq<T>, b: seq<T>, c: seq<T>)
    ensures (a + b) + c == a + (b + c)
  {
  }

  lemma SomeElement<T>(s: set<T>) returns (x: T)
    requires s != {}
    ensures x in s
  {
    x :| x in s;
  }

  lemma NothingBefore<T>(s: seq<T>)
    ensures [] + s == s && s + [] == s
  {
  }
}
