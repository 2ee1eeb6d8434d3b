/** The ICO encoder of `ch3/scripts/lib/icon-export.ts` and a reader that inverts it. */
module IcoFile {
  import opened Outcomes

  type Byte = b: int | 0 <= b < 256

  datatype Image = Image(size: int, contents: seq<Byte>)

  datatype IcoError =
    | NoImages
    | BadSize(size: int)
    | DuplicateSize(size: int)
    | EmptyImage(size: int)
    | ValueOutOfRange

  const HEADER_SIZE: nat := 6
  const ENTRY_SIZE: nat := 16
  const MAX_UINT32: nat := 0xFFFF_FFFF

  // ----- Layout -----

  function Low16(v: nat): (b: seq<Byte>)
    ensures |b| == 2
  {
    [v % 256, v / 256 % 256]
  }

  function Low32(v: nat): (b: seq<Byte>)
    ensures |b| == 4
  {
    [v % 256, v / 256 % 256, v / 65536 % 256, v / 16777216 % 256]
  }

  function SizeByte(size: int): Byte
    requires 1 <= size <= 256
  {
    if size == 256 then 0 else size
  }

  predicate ValidSizes(images: seq<Image>) {
    forall i :: 0 <= i < |images| ==> 1 <= images[i].size <= 256
  }

  /** How many image bytes come before image `i`. */
  function Before(images: seq<Image>, i: nat): nat
    requires i <= |images|
  {
    if i == 0 then 0 else Before(images, i - 1) + |images[i - 1].contents|
  }

  function Offset(images: seq<Image>, i: nat): nat
    requires i <= |images|
  {
    HEADER_SIZE + ENTRY_SIZE * |images| + Before(images, i)
  }

  /** One directory entry: size twice, no palette, one plane, 32 bits, length and offset. */
  function DirectoryEntry(image: Image, offset: nat): (e: seq<Byte>)
    requires 1 <= image.size <= 256
    ensures |e| == ENTRY_SIZE
  {
    [SizeByte(image.size), SizeByte(image.size), 0, 0] + Low16(1) + Low16(32) + Low32(|image.contents|) + Low32(offset)
  }

  function Directory(images: seq<Image>, n: nat): (d: seq<Byte>)
    requires ValidSizes(images) && n <= |images|
    ensures |d| == ENTRY_SIZE * n
  {
    if n == 0 then [] else Directory(images, n - 1) + DirectoryEntry(images[n - 1], Offset(images, n - 1))
  }

  function Contents(images: seq<Image>, n: nat): (c: seq<Byte>)
    requires n <= |images|
    ensures |c| == Before(images, n)
  {
    if n == 0 then [] else Contents(images, n - 1) + images[n - 1].contents
  }

  function Preamble(count: nat): (p: seq<Byte>)
    ensures |p| == HEADER_SIZE
  {
    Low16(0) + Low16(1) + Low16(count)
  }

  function FileBytes(images: seq<Image>): seq<Byte>
    requires ValidSizes(images)
  {
    Preamble(|images|) + Directory(images, |images|) + Contents(images, |images|)
  }

  // ----- What the encoder accepts -----

  predicate SizeSeen(images: seq<Image>, n: nat, size: int)
    requires n <= |images|
  {
    exists i :: 0 <= i < n && images[i].size == size
  }

  /** The first complaint of the validation loop, from image `i` on. */
  function Complaint(images: seq<Image>, i: nat): Option<IcoError>
    requires i <= |images|
    decreases |images| - i
  {
    if i == |images| then None
    else if images[i].size < 1 || images[i].size > 256 then Some(BadSize(images[i].size))
    else if SizeSeen(images, i, images[i].size) then Some(DuplicateSize(images[i].size))
    else if images[i].contents == [] then Some(EmptyImage(images[i].size))
    else Complaint(images, i + 1)
  }

  predicate DistinctSizes(images: seq<Image>) {
    forall i, j :: 0 <= i < j < |images| ==> images[i].size != images[j].size
  }

  /** What the documentation asks of the images. */
  predicate Encodable(images: seq<Image>) {
    images != [] && ValidSizes(images) && DistinctSizes(images) &&
    forall i :: 0 <= i < |images| ==> images[i].contents != []
  }

  /** Every length and offset fits its 32-bit field. */
  predicate Fits(images: seq<Image>) {
    FirstFit(images, |images|)
  }

  predicate FirstFit(images: seq<Image>, n: nat)
    requires n <= |images|
  {
    forall i :: 0 <= i < n ==> |images[i].contents| <= MAX_UINT32 && Offset(images, i) <= MAX_UINT32
  }

  // ----- The encoder -----

  /** `s` with `piece` written over it at position `at`. */
  function Splice(s: seq<Byte>, at: nat, piece: seq<Byte>): (r: seq<Byte>)
    requires at + |piece| <= |s|
    ensures |r| == |s| && r[..at + |piece|] == s[..at] + piece
  {
    s[..at] + piece + s[at + |piece|..]
  }

  lemma {:induction false} SpliceTwice(s: seq<Byte>, at: nat, a: seq<Byte>, b: seq<Byte>)
    requires at + |a| + |b| <= |s|
    ensures Splice(Splice(s, at, a), at + |a|, b) == Splice(s, at, a + b)
  {
    var once := Splice(s, at, a);
    assert once[at + |a| + |b|..] == s[at + |a| + |b|..];
    assert s[..at] + (a + b) == s[..at] + a + b;
  }

  method WriteUInt16LE(buffer: array<Byte>, value: nat, offset: nat)
    requires offset + 2 <= buffer.Length
    modifies buffer
    ensures buffer[..] == Splice(old(buffer[..]), offset, Low16(value))
  {
    buffer[offset] := value % 256;
    buffer[offset + 1] := value / 256 % 256;
  }

  method WriteUInt32LE(buffer: array<Byte>, value: nat, offset: nat)
    requires offset + 4 <= buffer.Length
    modifies buffer
    ensures buffer[..] == Splice(old(buffer[..]), offset, Low32(value))
  {
    buffer[offset] := value % 256;
    buffer[offset + 1] := value / 256 % 256;
    buffer[offset + 2] := value / 65536 % 256;
    buffer[offset + 3] := value / 16777216 % 256;
  }

  lemma {:induction false} NoComplaint(images: seq<Image>, i: nat)
    requires i <= |images|
    ensures Complaint(images, i) == None <==>
            forall k :: i <= k < |images| ==>
              1 <= images[k].size <= 256 && !SizeSeen(images, k, images[k].size) && images[k].contents != []
    decreases |images| - i
  {
    if i < |images| {
      NoComplaint(images, i + 1);
    }
  }

  /** The validation loop accepts exactly the encodable lists, apart from the empty one. */
  lemma {:induction false} ValidationMeaning(images: seq<Image>)
    requires images != []
    ensures Complaint(images, 0) == None <==> Encodable(images)
  {
    NoComplaint(images, 0);
    if Encodable(images) {
      forall k | 0 <= k < |images|
        ensures !SizeSeen(images, k, images[k].size)
      {
      }
    }
    if Complaint(images, 0) == None {
      forall i, j | 0 <= i < j < |images|
        ensures images[i].size != images[j].size
      {
        assert !SizeSeen(images, j, images[j].size);
      }
    }
  }

  /** Nothing is wrong with image `i`. */
  predicate IsSound(images: seq<Image>, i: nat)
    requires i < |images|
  {
    1 <= images[i].size <= 256 && !SizeSeen(images, i, images[i].size) && images[i].contents != []
  }

  /** What is wrong with image `i`: its size first, then a repetition, then missing contents. */
  predicate IsComplaint(images: seq<Image>, i: nat, e: IcoError)
    requires i < |images|
  {
    match e
    case BadSize(size) => size == images[i].size && !(1 <= size <= 256)
    case DuplicateSize(size) => size == images[i].size && 1 <= size <= 256 && SizeSeen(images, i, size)
    case EmptyImage(size) =>
      size == images[i].size && 1 <= size <= 256 && !SizeSeen(images, i, size) && images[i].contents == []
    case _ => false
  }

  /** The complaint about image `i` is `e`, and there is none about an image from `from` on and before it. */
  predicate IsFirstComplaint(images: seq<Image>, from: nat, i: nat, e: IcoError) {
    from <= i < |images| && IsComplaint(images, i, e) && forall k :: from <= k < i ==> IsSound(images, k)
  }

  lemma {:induction false} ComplaintFrom(images: seq<Image>, from: nat, e: IcoError)
    requires from <= |images|
    ensures Complaint(images, from) == Some(e) <==> exists i: nat :: IsFirstComplaint(images, from, i, e)
    decreases |images| - from
  {
    hide SizeSeen;
    if from < |images| {
      ComplaintFrom(images, from + 1, e);
      if Complaint(images, from + 1) == Some(e) && IsSound(images, from) {
        var i: nat :| IsFirstComplaint(images, from + 1, i, e);
        assert IsFirstComplaint(images, from, i, e);
      }
      if i: nat :| IsFirstComplaint(images, from, i, e) {
        assert i > from ==> IsSound(images, from) && IsFirstComplaint(images, from + 1, i, e);
      }
      if IsComplaint(images, from, e) {
        assert IsFirstComplaint(images, from, from, e);
      }
    }
  }

  /** The validation loop reports the first image that has a fault, and which. */
  lemma {:induction false} ComplaintMeaning(images: seq<Image>, e: IcoError)
    ensures Complaint(images, 0) == Some(e) <==> exists i: nat :: IsFirstComplaint(images, 0, i, e)
  {
    ComplaintFrom(images, 0, e);
  }

  method Validate(images: seq<Image>) returns (error: Option<IcoError>)
    ensures error == Complaint(images, 0)
  {
    var seenSizes: set<int> := {};
    var i := 0;
    while i < |images|
      invariant 0 <= i <= |images|
      invariant Complaint(images, 0) == Complaint(images, i)
      invariant forall size :: size in seenSizes <==> SizeSeen(images, i, size)
    {
      var image := images[i];
      if image.size < 1 || image.size > 256 {
        return Some(BadSize(image.size));
      }
      if image.size in seenSizes {
        return Some(DuplicateSize(image.size));
      }
      if |image.contents| == 0 {
        return Some(EmptyImage(image.size));
      }
      forall size
        ensures SizeSeen(images, i + 1, size) <==> SizeSeen(images, i, size) || size == image.size
      {
        assert images[i].size == image.size;
      }
      seenSizes := seenSizes + {image.size};
      i := i + 1;
    }
    return None;
  }

  /** Fills the first four bytes of an entry: the size twice and two zeros. */
  method WriteSizes(header: array<Byte>, size: int, at: nat)
    requires 1 <= size <= 256 && at + 4 <= header.Length
    modifies header
    ensures header[..] == Splice(old(header[..]), at, [SizeByte(size), SizeByte(size), 0, 0])
  {
    var encodedSize := if size == 256 then 0 else size;
    header[at] := encodedSize;
    header[at + 1] := encodedSize;
    header[at + 2] := 0;
    header[at + 3] := 0;
  }

  /** Fills one directory entry in place. */
  method WriteEntry(header: array<Byte>, image: Image, at: nat, imageOffset: nat)
    requires 1 <= image.size <= 256 && at + ENTRY_SIZE <= header.Length
    modifies header
    ensures header[..] == Splice(old(header[..]), at, DirectoryEntry(image, imageOffset))
  {
    hide Splice, Low16, Low32, SizeByte;
    ghost var was := header[..];
    ghost var entry := [SizeByte(image.size), SizeByte(image.size), 0, 0];
    WriteSizes(header, image.size, at);
    SpliceTwice(was, at, entry, Low16(1));
    WriteUInt16LE(header, 1, at + 4);
    entry := entry + Low16(1);
    SpliceTwice(was, at, entry, Low16(32));
    WriteUInt16LE(header, 32, at + 6);
    entry := entry + Low16(32);
    SpliceTwice(was, at, entry, Low32(|image.contents|));
    WriteUInt32LE(header, |image.contents|, at + 8);
    entry := entry + Low32(|image.contents|);
    SpliceTwice(was, at, entry, Low32(imageOffset));
    WriteUInt32LE(header, imageOffset, at + 12);
  }

  method WritePreamble(header: array<Byte>, count: nat)
    requires HEADER_SIZE <= header.Length
    modifies header
    ensures header[..HEADER_SIZE] == Preamble(count)
  {
    hide Splice, Low16;
    ghost var was := header[..];
    WriteUInt16LE(header, 0, 0);
    SpliceTwice(was, 0, Low16(0), Low16(1));
    WriteUInt16LE(header, 1, 2);
    SpliceTwice(was, 0, Low16(0) + Low16(1), Low16(count));
    WriteUInt16LE(header, count, 4);
    assert header[..HEADER_SIZE] == header[..][..HEADER_SIZE];
  }

  /** What one round of the directory loop adds. */
  lemma {:induction false} DirectoryStep(images: seq<Image>, i: nat, front: seq<Byte>)
    requires ValidSizes(images) && i < |images|
    ensures Offset(images, i + 1) == Offset(images, i) + |images[i].contents|
    ensures front + Directory(images, i + 1) ==
            front + Directory(images, i) + DirectoryEntry(images[i], Offset(images, i))
    ensures FirstFit(images, i + 1) <==>
            FirstFit(images, i) && |images[i].contents| <= MAX_UINT32 && Offset(images, i) <= MAX_UINT32
    ensures FirstFit(images, |images|) ==> FirstFit(images, i + 1)
  {
    hide DirectoryEntry;
  }

  /** The directory loop: one entry per image, at offsets that add up the image lengths. */
  method WriteDirectory(header: array<Byte>, images: seq<Image>) returns (ok: bool)
    requires ValidSizes(images) && header.Length == HEADER_SIZE + ENTRY_SIZE * |images|
    modifies header
    ensures ok == Fits(images)
    ensures ok ==> header[..] == old(header[..HEADER_SIZE]) + Directory(images, |images|)
  {
    hide Splice, DirectoryEntry, Directory, FirstFit, Before;
    ghost var front := header[..HEADER_SIZE];
    var imageOffset := header.Length;
    var index := 0;
    assert Offset(images, 0) == header.Length && FirstFit(images, 0) && Directory(images, 0) == [] by {
      NoEntries(images);
    }
    while index < |images|
      invariant 0 <= index <= |images|
      invariant imageOffset == Offset(images, index)
      invariant header[..HEADER_SIZE + ENTRY_SIZE * index] == front + Directory(images, index)
      invariant FirstFit(images, index)
    {
      hide Offset, ValidSizes;
      DirectoryStep(images, index, front);
      var image := images[index];
      if |image.contents| > MAX_UINT32 || imageOffset > MAX_UINT32 {
        return false;
      }
      WriteNext(header, image, HEADER_SIZE + ENTRY_SIZE * index, imageOffset);
      imageOffset := imageOffset + |image.contents|;
      index := index + 1;
    }
    assert header[..] == header[..HEADER_SIZE + ENTRY_SIZE * index];
    return true;
  }

  lemma {:induction false} NoEntries(images: seq<Image>)
    requires ValidSizes(images)
    ensures Offset(images, 0) == HEADER_SIZE + ENTRY_SIZE * |images| && FirstFit(images, 0) &&
            Directory(images, 0) == []
  {
  }

  /** Writing an entry extends the filled prefix by that entry. */
  method WriteNext(header: array<Byte>, image: Image, at: nat, imageOffset: nat)
    requires 1 <= image.size <= 256 && at + ENTRY_SIZE <= header.Length
    modifies header
    ensures header[..at + ENTRY_SIZE] == old(header[..at]) + DirectoryEntry(image, imageOffset)
  {
    hide Splice, DirectoryEntry;
    ghost var was := header[..];
    WriteEntry(header, image, at, imageOffset);
    assert header[..at + ENTRY_SIZE] == header[..][..at + ENTRY_SIZE];
    assert was[..at] == old(header[..at]);
  }

  /** Encoding succeeds exactly on a non-empty list without complaint whose lengths and offsets fit. */
  method EncodePngIco(images: seq<Image>) returns (r: Result<seq<Byte>, IcoError>)
    ensures images == [] ==> r == Err(NoImages)
    ensures images != [] && Complaint(images, 0).Some? ==> r == Err(Complaint(images, 0).value)
    ensures Encodable(images) ==> r == if Fits(images) then Ok(FileBytes(images)) else Err(ValueOutOfRange)
    ensures r.Ok? ==> Encodable(images)
  {
    hide Preamble, Directory, Contents, Fits;
    if |images| == 0 {
      return Err(NoImages);
    }
    var error := Validate(images);
    ValidationMeaning(images);
    if error.Some? {
      return Err(error.value);
    }
    var header := new Byte[HEADER_SIZE + ENTRY_SIZE * |images|](_ => 0);
    WritePreamble(header, |images|);
    var ok := WriteDirectory(header, images);
    if !ok {
      return Err(ValueOutOfRange);
    }
    var contents := ConcatContents(images);
    return Ok(header[..] + contents);
  }

  method ConcatContents(images: seq<Image>) returns (contents: seq<Byte>)
    ensures contents == Contents(images, |images|)
  {
    contents := [];
    var i := 0;
    while i < |images|
      invariant 0 <= i <= |images|
      invariant contents == Contents(images, i)
    {
      contents := contents + images[i].contents;
      i := i + 1;
    }
  }

  // ----- Reading a file back -----

  function Read16(file: seq<Byte>, at: nat): nat
    requires at + 2 <= |file|
  {
    (file[at] as int) + 256 * (file[at + 1] as int)
  }

  function Read32(file: seq<Byte>, at: nat): nat
    requires at + 4 <= |file|
  {
    (file[at] as int) + 256 * (file[at + 1] as int) + 65536 * (file[at + 2] as int) + 16777216 * (file[at + 3] as int)
  }

  /** The image that directory entry `i` points to. */
  function ReadEntry(file: seq<Byte>, i: nat): Option<Image> {
    var at := HEADER_SIZE + ENTRY_SIZE * i;
    if at + ENTRY_SIZE > |file| then None
    else
      var length, offset := Read32(file, at + 8), Read32(file, at + 12);
      if offset + length > |file| then None
      else Some(Image(if file[at] == 0 then 256 else file[at], file[offset..offset + length]))
  }

  function ReadEntries(file: seq<Byte>, n: nat): Option<seq<Image>> {
    if n == 0 then Some([])
    else match ReadEntries(file, n - 1)
      case None => None
      case Some(images) =>
        match ReadEntry(file, n - 1)
        case None => None
        case Some(image) => Some(images + [image])
  }

  function ReadIco(file: seq<Byte>): Option<seq<Image>> {
    if |file| < HEADER_SIZE || Read16(file, 0) != 0 || Read16(file, 2) != 1 then None
    else ReadEntries(file, Read16(file, 4))
  }

  // ----- The reader inverts the encoder -----

  lemma {:induction false} Low32Value(v: nat)
    requires v <= MAX_UINT32
    ensures Read32(Low32(v), 0) == v
  {
    assert v / 65536 == v / 256 / 256 && v / 16777216 == v / 256 / 256 / 256;
  }

  function SizesOf(images: seq<Image>, n: nat): set<int>
    requires n <= |images|
  {
    set i | 0 <= i < n :: images[i].size
  }

  lemma {:induction false} SizesCounted(images: seq<Image>, n: nat)
    requires n <= |images| && DistinctSizes(images)
    ensures |SizesOf(images, n)| == n
  {
    if n > 0 {
      SizesCounted(images, n - 1);
      assert SizesOf(images, n) == SizesOf(images, n - 1) + {images[n - 1].size};
      assert images[n - 1].size !in SizesOf(images, n - 1);
    }
  }

  lemma {:induction false} RangeCounted(s: set<int>, n: nat)
    requires forall x :: x in s ==> 1 <= x <= n
    ensures |s| <= n
  {
    if n == 0 {
      assert forall x :: x !in s;
      assert s == {};
    } else {
      RangeCounted(s - {n}, n - 1);
    }
  }

  /** At most 256 images can have distinct sizes between 1 and 256, so the 16-bit count holds. */
  lemma {:induction false} CountFits(images: seq<Image>)
    requires ValidSizes(images) && DistinctSizes(images)
    ensures |images| <= 256 && Read16(Low16(|images|), 0) == |images|
  {
    SizesCounted(images, |images|);
    RangeCounted(SizesOf(images, |images|), 256);
  }

  lemma {:induction false} DirectoryAt(images: seq<Image>, n: nat, i: nat)
    requires ValidSizes(images) && i < n <= |images|
    ensures Directory(images, n)[ENTRY_SIZE * i..ENTRY_SIZE * i + ENTRY_SIZE] ==
            DirectoryEntry(images[i], Offset(images, i))
  {
    hide DirectoryEntry, Offset;
    var front := Directory(images, n - 1);
    if i < n - 1 {
      DirectoryAt(images, n - 1, i);
      assert Directory(images, n)[ENTRY_SIZE * i..ENTRY_SIZE * i + ENTRY_SIZE] ==
             front[ENTRY_SIZE * i..ENTRY_SIZE * i + ENTRY_SIZE];
    }
  }

  lemma {:induction false} ContentsAt(images: seq<Image>, n: nat, i: nat)
    requires i < n <= |images|
    ensures Before(images, i) + |images[i].contents| <= Before(images, n)
    ensures Contents(images, n)[Before(images, i)..Before(images, i) + |images[i].contents|] == images[i].contents
  {
    var front, image := Contents(images, n - 1), images[n - 1].contents;
    assert Contents(images, n) == front + image;
    if i < n - 1 {
      ContentsAt(images, n - 1, i);
      var from, to := Before(images, i), Before(images, i) + |images[i].contents|;
      assert (front + image)[from..to] == front[from..to];
    } else {
      assert (front + image)[|front|..] == image;
      assert Before(images, i) + |image| == |front + image|;
    }
  }

  lemma {:induction false} MiddleSlice(a: seq<Byte>, b: seq<Byte>, c: seq<Byte>, from: nat, to: nat)
    requires from <= to <= |b|
    ensures (a + b + c)[|a| + from..|a| + to] == b[from..to]
  {
  }

  /** Entry `i` of an encoded file selects exactly image `i`. */
  lemma {:induction false} EntrySelects(images: seq<Image>, i: nat)
    requires ValidSizes(images) && Fits(images) && i < |images|
    ensures ReadEntry(FileBytes(images), i) == Some(images[i])
  {
    hide Preamble, Directory, Contents, DirectoryEntry, Before, Read32;
    var n := |images|;
    var file, image, at, offset := FileBytes(images), images[i], HEADER_SIZE + ENTRY_SIZE * i, Offset(images, i);
    var head, directory, contents := Preamble(n), Directory(images, n), Contents(images, n);
    DirectoryAt(images, n, i);
    ContentsAt(images, n, i);
    MiddleSlice(head, directory, contents, ENTRY_SIZE * i, ENTRY_SIZE * i + ENTRY_SIZE);
    EntryFields(file, at, image, offset);
    MiddleSlice(head + directory, contents, [], Before(images, i), Before(images, i) + |image.contents|);
    assert head + directory + contents + [] == file;
    assert file[offset..offset + |image.contents|] == image.contents;
  }

  lemma {:induction false} EntryFields(file: seq<Byte>, at: nat, image: Image, offset: nat)
    requires 1 <= image.size <= 256 && |image.contents| <= MAX_UINT32 && offset <= MAX_UINT32
    requires at + ENTRY_SIZE <= |file| && file[at..at + ENTRY_SIZE] == DirectoryEntry(image, offset)
    ensures file[at] == SizeByte(image.size) && file[at + 1] == SizeByte(image.size)
    ensures file[at + 2] == 0 && file[at + 3] == 0 && Read16(file, at + 4) == 1 && Read16(file, at + 6) == 32
    ensures Read32(file, at + 8) == |image.contents| && Read32(file, at + 12) == offset
  {
    var entry := DirectoryEntry(image, offset);
    Low32Value(|image.contents|);
    Low32Value(offset);
    hide Low32;
    assert forall k :: 0 <= k < ENTRY_SIZE ==> file[at + k] == entry[k];
    assert entry[8..12] == Low32(|image.contents|) && entry[12..16] == Low32(offset);
    assert forall k :: 0 <= k < 4 ==> file[at + 8 + k] == entry[8..12][k];
    assert forall k :: 0 <= k < 4 ==> file[at + 12 + k] == entry[12..16][k];
    assert file[at] == entry[0] && file[at + 1] == entry[1] && file[at + 2] == entry[2] && file[at + 3] == entry[3];
    assert file[at + 4] == entry[4] && file[at + 5] == entry[5] && file[at + 6] == entry[6] && file[at + 7] == entry[7];
  }

  /** The bytes of directory entry `i`: width and height, no palette, one plane, 32 bits, length and offset. */
  lemma {:induction false} EntryBytes(images: seq<Image>, i: nat)
    requires ValidSizes(images) && Fits(images) && i < |images|
    ensures var file, at, size := FileBytes(images), 6 + 16 * i, images[i].size;
            && |file| >= 6 + 16 * |images|
            && file[at] == (if size == 256 then 0 else size) && file[at + 1] == file[at]
            && file[at + 2] == 0 && file[at + 3] == 0 && Read16(file, at + 4) == 1 && Read16(file, at + 6) == 32
            && Read32(file, at + 8) == |images[i].contents| && Read32(file, at + 12) == Offset(images, i)
  {
    hide Preamble, Directory, Contents, DirectoryEntry, Before, Read32, Read16;
    var n, at := |images|, HEADER_SIZE + ENTRY_SIZE * i;
    DirectoryAt(images, n, i);
    MiddleSlice(Preamble(n), Directory(images, n), Contents(images, n), ENTRY_SIZE * i, ENTRY_SIZE * i + ENTRY_SIZE);
    EntryFields(FileBytes(images), at, images[i], Offset(images, i));
  }

  lemma {:induction false} ReadsEntries(images: seq<Image>, n: nat)
    requires ValidSizes(images) && Fits(images) && n <= |images|
    ensures ReadEntries(FileBytes(images), n) == Some(images[..n])
  {
    hide FileBytes, ReadEntry, Fits;
    if n > 0 {
      ReadsEntries(images, n - 1);
      EntrySelects(images, n - 1);
      assert images[..n] == images[..n - 1] + [images[n - 1]];
    }
  }

  lemma {:induction false} PreambleFields(file: seq<Byte>, count: nat)
    requires count <= 256 && HEADER_SIZE <= |file| && file[..HEADER_SIZE] == Preamble(count)
    ensures Read16(file, 0) == 0 && Read16(file, 2) == 1 && Read16(file, 4) == count
  {
    assert forall k :: 0 <= k < HEADER_SIZE ==> file[k] == Preamble(count)[k];
  }

  /** Reading an encoded file gives all images back, in order. */
  lemma {:induction false} ReadInvertsEncode(images: seq<Image>)
    requires Encodable(images) && Fits(images)
    ensures ReadIco(FileBytes(images)) == Some(images)
  {
    hide Low16, Directory, Contents, Fits, ReadEntries, Read16, DistinctSizes;
    var file := FileBytes(images);
    CountFits(images);
    assert file[..HEADER_SIZE] == Preamble(|images|);
    PreambleFields(file, |images|);
    ReadsEntries(images, |images|);
    assert images[..|images|] == images;
  }

  /** The image ranges start after the directory, never overlap, leave no gap and end with the file. */
  lemma {:induction false} RangesTile(images: seq<Image>)
    requires ValidSizes(images)
    ensures Offset(images, 0) == HEADER_SIZE + ENTRY_SIZE * |images|
    ensures forall i :: 0 <= i < |images| ==> Offset(images, i + 1) == Offset(images, i) + |images[i].contents|
    ensures forall i, j :: 0 <= i < j < |images| ==> Offset(images, i) + |images[i].contents| <= Offset(images, j)
    ensures Offset(images, |images|) == |FileBytes(images)|
  {
    forall i, j | 0 <= i < j < |images|
      ensures Offset(images, i) + |images[i].contents| <= Offset(images, j)
    {
      ContentsAt(images, j, i);
    }
  }

  /** Encoding is injective: the size byte and the ranges lose nothing. */
  lemma {:induction false} EncodeInjective(a: seq<Image>, b: seq<Image>)
    requires Encodable(a) && Fits(a) && Encodable(b) && Fits(b)
    requires FileBytes(a) == FileBytes(b)
    ensures a == b
  {
    ReadInvertsEncode(a);
    ReadInvertsEncode(b);
  }
}
