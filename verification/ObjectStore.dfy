/** The in-memory object store with conditional writes, and what its entity
    tags guarantee over every history of puts and deletes.
 */
module ObjectStore {
  import opened Types
  import opened Division

  datatype Object = Object(data: Bytes, etag: string)

  /** `version` is an unsigned 64-bit counter, so it wraps. */
  datatype Store = Store(objects: map<string, Object>, version: Seq)

  const EMPTY_STORE := Store(map[], 0)

  /** An empty `ifMatch` stands for no condition. */
  datatype PutOptions = PutOptions(ifNoneMatch: bool, ifMatch: string)

  datatype PutResult = Written(etag: string) | NotFound | PreconditionFailed

  function Digits(n: nat): string {
    var digit := '0' + (n % 10) as char;
    if n < 10 then [digit] else Digits(n / 10) + [digit]
  }

  function ETag(version: nat): string {
    "v" + Digits(version)
  }

  function PutVerdict(s: Store, key: string, opts: PutOptions): PutResult {
    if opts.ifNoneMatch && key in s.objects then PreconditionFailed
    else if opts.ifMatch != "" && key !in s.objects then NotFound
    else if opts.ifMatch != "" && s.objects[key].etag != opts.ifMatch then PreconditionFailed
    else Written(ETag(s.version))
  }

  function PutInto(s: Store, key: string, data: Bytes, opts: PutOptions): Store {
    if PutVerdict(s, key, opts).Written?
    then Store(s.objects[key := Object(data, ETag(s.version))], Inc(s.version))
    else s
  }

  function DeleteFrom(s: Store, key: string): Store {
    s.(objects := s.objects - {key})
  }

  /** The store as an object that the operations change in place. */
  class MemoryObjectStore {
    var objects: map<string, Object>
    var version: Seq

    ghost function View(): Store
      reads this
    {
      Store(objects, version)
    }

    constructor ()
      ensures View() == EMPTY_STORE
    {
      objects, version := map[], 0;
    }

    method Put(key: string, data: Bytes, opts: PutOptions) returns (r: PutResult)
      modifies this
      ensures r == PutVerdict(old(View()), key, opts)
      ensures View() == PutInto(old(View()), key, data, opts)
    {
      if opts.ifNoneMatch && key in objects { return PreconditionFailed; }
      if opts.ifMatch != "" {
        if key !in objects { return NotFound; }
        if objects[key].etag != opts.ifMatch { return PreconditionFailed; }
      }
      var etag := ETag(version);
      version := Inc(version);
      objects := objects[key := Object(data, etag)];
      return Written(etag);
    }

    method Get(key: string) returns (r: Option<Object>)
      ensures r == if key in objects then Some(objects[key]) else None
    {
      r := if key in objects then Some(objects[key]) else None;
    }

    method Delete(key: string)
      modifies this
      ensures View() == DeleteFrom(old(View()), key)
    {
      objects := objects - {key};
    }
  }

  // ----- Histories -----

  datatype Op = PutOp(key: string, data: Bytes, opts: PutOptions) | DeleteOp(key: string)

  function Apply(s: Store, op: Op): Store {
    match op
    case PutOp(key, data, opts) => PutInto(s, key, data, opts)
    case DeleteOp(key) => DeleteFrom(s, key)
  }

  /** The store after the first `n` operations of a history. */
  function After(ops: seq<Op>, n: nat): Store
    requires n <= |ops|
  {
    if n == 0 then EMPTY_STORE else Apply(After(ops, n - 1), ops[n - 1])
  }

  /** Operation `i` is a put that was carried out. */
  predicate Wrote(ops: seq<Op>, i: nat)
    requires i < |ops|
  {
    ops[i].PutOp? && PutVerdict(After(ops, i), ops[i].key, ops[i].opts).Written?
  }

  function TagOf(ops: seq<Op>, i: nat): string
    requires i < |ops|
  {
    ETag(After(ops, i).version)
  }

  /** Operation `i` wrote or deleted the key. */
  predicate Touched(ops: seq<Op>, i: nat, key: string)
    requires i < |ops|
  {
    ops[i].key == key && (ops[i].DeleteOp? || Wrote(ops, i))
  }

  // ----- Entity tags are fresh -----

  function Value(s: string): int {
    if s == [] then 0 else 10 * Value(s[..|s| - 1]) + (s[|s| - 1] as int - '0' as int)
  }

  lemma {:induction false} ValueOfDigits(n: nat)
    ensures Value(Digits(n)) == n
  {
    if n >= 10 {
      ValueOfDigits(n / 10);
      assert Digits(n)[..|Digits(n)| - 1] == Digits(n / 10);
    }
  }

  lemma ETagInjective(v: nat, w: nat)
    requires ETag(v) == ETag(w)
    ensures v == w
  {
    ValueOfDigits(v);
    ValueOfDigits(w);
    assert ETag(v)[1..] == Digits(v) && ETag(w)[1..] == Digits(w);
  }

  /** The puts carried out among the first `n` operations. */
  function Writes(ops: seq<Op>, n: nat): nat
    requires n <= |ops|
  {
    if n == 0 then 0 else Writes(ops, n - 1) + if Wrote(ops, n - 1) then 1 else 0
  }

  /** The counter counts exactly these, modulo 2^64: neither a put that fails
      nor a delete uses up a tag. */
  lemma {:induction false} VersionCountsWrites(ops: seq<Op>, n: nat)
    requires n <= |ops|
    ensures After(ops, n).version == Writes(ops, n) % 0x1_0000_0000_0000_0000
  {
    if n > 0 {
      VersionCountsWrites(ops, n - 1);
      WrapAround(Writes(ops, n - 1), 0x1_0000_0000_0000_0000);
    }
  }

  lemma WrapAround(w: nat, m: nat)
    requires m > 0
    ensures (w + 1) % m == if w % m == m - 1 then 0 else w % m + 1
  {
    var q, r := w / m, w % m;
    DivBounds(w, m);
    if r == m - 1 {
      assert w + 1 == (q + 1) * m;
      DivUnique(w + 1, m, q + 1);
    } else {
      DivUnique(w + 1, m, q);
    }
  }

  /** The counter does not wrap within 2^64 operations, and a put moves it. */
  lemma {:induction false} VersionGrows(ops: seq<Op>, i: nat, j: nat)
    requires i <= j <= |ops| && j <= MAX_SEQ
    ensures After(ops, i).version <= After(ops, j).version <= j
    ensures i < j && Wrote(ops, i) ==> After(ops, i).version < After(ops, j).version
    decreases j
  {
    if i < j {
      VersionGrows(ops, i, j - 1);
    } else if j > 0 {
      VersionGrows(ops, j - 1, j - 1);
    }
  }

  /** Over any history of at most 2^64 operations, no two puts get the same
      entity tag. */
  lemma FreshETags(ops: seq<Op>, i: nat, j: nat)
    requires |ops| <= MAX_SEQ + 1 && i < j < |ops| && Wrote(ops, i) && Wrote(ops, j)
    ensures TagOf(ops, i) != TagOf(ops, j)
  {
    VersionGrows(ops, i, j);
    if TagOf(ops, i) == TagOf(ops, j) {
      ETagInjective(After(ops, i).version, After(ops, j).version);
    }
  }

  // ----- No ABA -----

  /** An object in the store comes from a put that nothing has touched since. */
  lemma {:induction false} LastWriter(ops: seq<Op>, n: nat, key: string) returns (i: nat)
    requires n <= |ops| && key in After(ops, n).objects
    ensures i < n && Wrote(ops, i) && ops[i].key == key
    ensures After(ops, n).objects[key] == Object(ops[i].data, TagOf(ops, i))
    ensures forall k | i < k < n :: !Touched(ops, k, key)
  {
    if Touched(ops, n - 1, key) {
      i := n - 1;
    } else {
      i := LastWriter(ops, n - 1, key);
    }
  }

  /** A put conditional on the tag of an earlier put is carried out only if it
      names the same key and nothing wrote or deleted that key in between. */
  lemma NoABA(ops: seq<Op>, i: nat, j: nat)
    requires |ops| <= MAX_SEQ + 1 && i < j < |ops|
    requires Wrote(ops, i) && Wrote(ops, j) && ops[j].opts.ifMatch == TagOf(ops, i)
    ensures ops[j].key == ops[i].key
    ensures forall k | i < k < j :: !Touched(ops, k, ops[i].key)
  {
    var w := LastWriter(ops, j, ops[j].key);
    if w < i { FreshETags(ops, w, i); }
    if i < w { FreshETags(ops, i, w); }
  }

  /** Conversely, such a put on an untouched key is always carried out. */
  lemma {:induction false} UntouchedMatches(ops: seq<Op>, i: nat, n: nat)
    requires i < n <= |ops| && Wrote(ops, i)
    requires forall k | i < k < n :: !Touched(ops, k, ops[i].key)
    ensures PutVerdict(After(ops, n), ops[i].key, PutOptions(false, TagOf(ops, i))).Written?
    ensures ops[i].key in After(ops, n).objects && After(ops, n).objects[ops[i].key] == Object(ops[i].data, TagOf(ops, i))
    decreases n
  {
    if n - 1 > i {
      UntouchedMatches(ops, i, n - 1);
      assert !Touched(ops, n - 1, ops[i].key);
    }
  }

  // ----- What a put answers, told from the history alone -----

  /** Operation `i` is the last of the first `n` that touched the key. */
  ghost predicate LastTouch(ops: seq<Op>, n: nat, key: string, i: nat)
    requires n <= |ops|
  {
    i < n && Touched(ops, i, key) && forall k | i < k < n :: !Touched(ops, k, key)
  }

  /** The last operation that touched the key wrote it, under this tag. */
  ghost predicate Present(ops: seq<Op>, n: nat, key: string, tag: string)
    requires n <= |ops|
  {
    exists i: nat :: LastTouch(ops, n, key, i) && ops[i].PutOp? && TagOf(ops, i) == tag
  }

  /** The last operation that touched the key is a delete, or there is none. */
  ghost predicate Gone(ops: seq<Op>, n: nat, key: string)
    requires n <= |ops|
  {
    forall i: nat | LastTouch(ops, n, key, i) :: ops[i].DeleteOp?
  }

  /** The key is there, under a tag, exactly when the last operation that
      touched it was a put that got this tag. */
  lemma PresentIff(ops: seq<Op>, n: nat, key: string, tag: string)
    requires n <= |ops|
    ensures Present(ops, n, key, tag) <==> key in After(ops, n).objects && After(ops, n).objects[key].etag == tag
    ensures Gone(ops, n, key) <==> key !in After(ops, n).objects
  {
    if key in After(ops, n).objects {
      var w := LastWriter(ops, n, key);
      assert LastTouch(ops, n, key, w);
      assert forall i: nat | LastTouch(ops, n, key, i) :: i == w;
    } else {
      forall i: nat | LastTouch(ops, n, key, i) ensures ops[i].DeleteOp? {
        if ops[i].PutOp? { UntouchedMatches(ops, i, n); }
      }
    }
  }

  /** Every put, whatever its conditions: an unconditional one is always carried
      out; one for an absent key exactly when the key is gone, and else fails its
      precondition; one for a tag finds nothing exactly when the key is gone, and
      fails its precondition exactly when the key is there under another tag. */
  lemma PutAnswers(ops: seq<Op>, n: nat, key: string, opts: PutOptions)
    requires n <= |ops|
    ensures var r := PutVerdict(After(ops, n), key, opts);
            && (!opts.ifNoneMatch && opts.ifMatch == "" ==> r.Written?)
            && (opts.ifNoneMatch && opts.ifMatch == "" ==> if Gone(ops, n, key) then r.Written? else r == PreconditionFailed)
            && (!opts.ifNoneMatch && opts.ifMatch != "" ==>
                  && (r == NotFound <==> Gone(ops, n, key))
                  && (r.Written? <==> Present(ops, n, key, opts.ifMatch))
                  && (r == PreconditionFailed <==> exists tag :: tag != opts.ifMatch && Present(ops, n, key, tag)))
            && (opts.ifNoneMatch && opts.ifMatch != "" ==> r == if Gone(ops, n, key) then NotFound else PreconditionFailed)
            && (r.Written? ==> r.etag == ETag(After(ops, n).version))
  {
    PresentIff(ops, n, key, opts.ifMatch);
    if key in After(ops, n).objects {
      PresentIff(ops, n, key, After(ops, n).objects[key].etag);
    }
    forall tag ensures Present(ops, n, key, tag) ==> key in After(ops, n).objects && After(ops, n).objects[key].etag == tag {
      PresentIff(ops, n, key, tag);
    }
  }
}
