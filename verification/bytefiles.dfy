/** Local stage files as byte arrays: what `set_len`, `seek` and `write_all` do to one. */
module ByteFiles {
  import opened Phones

  function Zeros(n: nat): Bytes {
    seq(n, _ => 0)
  }

  function Max(a: nat, b: nat): nat {
    if a <= b then b else a
  }

  /** `set_len`. */
  function Resize(b: Bytes, n: nat): Bytes {
    if n <= |b| then b[..n] else b + Zeros(n - |b|)
  }

  /** `seek` then `write_all`: a gap is filled with zeros, an empty write touches nothing. */
  function Overwrite(b: Bytes, offset: nat, data: Bytes): Bytes {
    if data == [] then b
    else if offset + |data| < |b| then b[..offset] + data + b[offset + |data|..]
    else Resize(b, offset) + data
  }

  /** `seek` then `read`: the bytes at hand, none past the end. */
  function Window(b: Bytes, offset: nat, count: nat): Bytes {
    var from := Min(offset, |b|);
    b[from..from + Min(count, |b| - from)]
  }

  /** What a byte array shows after a write: the data in its window, the old bytes elsewhere,
      zeros in a gap. */
  lemma OverwriteShows(b: Bytes, offset: nat, data: Bytes, k: nat)
    requires data != [] && k < |Overwrite(b, offset, data)|
    ensures |Overwrite(b, offset, data)| == if offset + |data| < |b| then |b| else offset + |data|
    ensures Overwrite(b, offset, data)[k] ==
        if offset <= k < offset + |data| then data[k - offset] else if k < |b| then b[k] else 0
  {
  }

  /** And after a change of size: the old bytes as far as they go, zeros beyond. */
  lemma ResizeShows(b: Bytes, n: nat, k: nat)
    requires k < n
    ensures |Resize(b, n)| == n && Resize(b, n)[k] == if k < |b| then b[k] else 0
  {
  }

  /** Reading back what was written. */
  lemma WindowOfOverwrite(b: Bytes, offset: nat, data: Bytes)
    requires data != []
    ensures Window(Overwrite(b, offset, data), offset, |data|) == data
  {
  }

  /** The size `write` records is the file's length exactly when the write carries data or starts
      within the file. */
  lemma WrittenSize(b: Bytes, offset: nat, data: Bytes)
    ensures |Overwrite(b, offset, data)| == Max(|b|, offset + |data|) <==> data != [] || offset <= |b|
  {
  }
}
