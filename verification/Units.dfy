/** Machine integers, status values and a few helpers shared by the modules. */
module Units {
  datatype Option<+T> = None | Some(value: T)

  /** The values of status_t that the camera code returns here. */
  datatype Status = NoError | NoMemory | BadIndex | UnknownError | FailedTransaction

  type Byte = b: int | 0 <= b < 0x100
  type Unit = u: int | 0 <= u < 0x1_0000

  function Min(a: int, b: int): int {
    if a <= b then a else b
  }

  /** If what remains of `all` from `at` is `chunk + rest`, then `all` holds `chunk` there and `rest` behind it. */
  lemma Chunk<T>(all: seq<T>, at: nat, chunk: seq<T>, rest: seq<T>)
    requires at <= |all| && all[at..] == chunk + rest
    ensures at + |chunk| <= |all|
    ensures all[at + |chunk|..] == rest
    ensures forall i :: 0 <= i < |chunk| ==> all[at + i] == chunk[i]
  {
  }

  /** A buffer whose front is `all` and whose rest is untouched, written out as one sequence. */
  lemma FrontAndRest<T>(now: seq<T>, all: seq<T>, was: seq<T>)
    requires |all| <= |was| == |now|
    requires forall i :: 0 <= i < |all| ==> now[i] == all[i]
    requires forall i :: |all| <= i < |now| ==> now[i] == was[i]
    ensures now == all + was[|all|..]
  {
  }

  /** A sequence without its element k. */
  function Without<T>(s: seq<T>, k: nat): seq<T>
    requires k < |s|
  {
    s[..k] + s[k + 1..]
  }

  lemma WithoutUnfolds<T>(s: seq<T>, k: nat)
    requires k < |s|
    ensures k == 0 ==> Without(s, k) == s[1..]
    ensures k > 0 ==> Without(s, k) != [] && Without(s, k)[0] == s[0] && Without(s, k)[1..] == Without(s[1..], k - 1)
  {
  }

  /** The buffers one camera memory object can hold. */
  const MM_CAMERA_MAX_NUM_FRAMES := 64
}
