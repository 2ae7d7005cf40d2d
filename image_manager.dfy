/** The vehicle image store: thumbnails on disk under `<name>.jpg`, an
    in-memory cache, and the `ImageSaved` events the dashboard listens to. */
module Images {
  import opened Common
  import opened Vehicles

  /** A square region of a bitmap: top-left corner and side, in pixels. */
  datatype CropRect = CropRect(x: nat, y: nat, size: nat)

  /** The pixel content of a bitmap, kept abstract: decoded from some
      source, or derived from another bitmap by cropping or by scaling. */
  datatype Pixels = Decoded(source: nat) | Cropped(from: Pixels, rect: CropRect) | Scaled(from: Pixels)

  datatype Bitmap = Bitmap(pixels: Pixels, width: nat, height: nat)

  datatype ImageEvent = ImageSaved(identifier: string, bitmap: Bitmap)

  /** The content of a file in the `images` directory: a JPEG that decodes
      to a bitmap, or the remains of a write that failed part-way. */
  datatype StoredFile = Jpeg(bitmap: Bitmap) | Damaged

  /** How the write of `save` ended: no `images` directory, no output stream,
      opening the stream threw, `compress` threw part-way, or `compress`
      returned `ok`. */
  datatype WriteOutcome = NoDirectory | NoStream | OpenThrew | CompressThrew | Compressed(ok: bool)

  /** The side of the stored thumbnails. */
  const ThumbnailSide: nat := 128

  /** The geometry of `centerCropped`: the largest square, centred, with the
      odd pixel of an odd margin going to the right or bottom side. */
  function CenterCrop(width: nat, height: nat): (r: CropRect)
    ensures r.size == if width <= height then width else height
    ensures r.x + r.size <= width && r.y + r.size <= height
    ensures width - r.size - 2 * r.x in {0, 1}
    ensures height - r.size - 2 * r.y in {0, 1}
    ensures width >= 1 && height >= 1 ==> r.size >= 1
  {
    if width >= height then CropRect((width - height) / 2, 0, height)
    else CropRect(0, (height - width) / 2, width)
  }

  /** `centerCropped().scale(128, 128, true)`: the form in which images are
      cached and written to disk. */
  function Thumbnail(b: Bitmap): Bitmap {
    Bitmap(Scaled(Cropped(b.pixels, CenterCrop(b.width, b.height))), ThumbnailSide, ThumbnailSide)
  }

  /** The file an image name is stored under. */
  function ImageFileName(name: string): string {
    name + ".jpg"
  }

  /** `split(".")[0]`: the part of a file name before its first dot, or the
      whole name when it has none. */
  function BaseName(fileName: string): (name: string)
    ensures name <= fileName
    ensures '.' !in name
    ensures |name| < |fileName| ==> fileName[|name|] == '.'
  {
    if fileName == [] || fileName[0] == '.' then []
    else [fileName[0]] + BaseName(fileName[1..])
  }

  /** An image name without dots is recovered from its file name. */
  lemma BaseNameOfImageFile(name: string)
    requires '.' !in name
    ensures BaseName(ImageFileName(name)) == name
  {
    var f := ImageFileName(name);
    assert f[|name|] == '.';
    assert f[..|name|] == name;
  }

  /** Distinct names are stored in distinct files. */
  lemma ImageFileNameInjective(a: string, b: string)
    ensures ImageFileName(a) == ImageFileName(b) ==> a == b
  {
    if ImageFileName(a) == ImageFileName(b) {
      assert |a| == |b|;
      assert a == ImageFileName(a)[..|a|];
      assert b == ImageFileName(b)[..|b|];
    }
  }

  function FilesOf(names: set<string>): set<string> {
    set n | n in names :: ImageFileName(n)
  }

  /** The ids of the vehicles `getAllVehicles` lists for these documents. */
  function VehicleIds(documents: seq<VehicleDocument>): set<string> {
    set v | v in AllVehicles(documents) :: v.id
  }

  class ImageManager {
    /** The in-memory cache, by image name. */
    var cache: map<string, Bitmap>
    /** The private `images` directory, by file name. */
    var files: map<string, StoredFile>
    /** The `ImageSaved` events emitted so far, oldest first. */
    var events: seq<ImageEvent>

    constructor (files: map<string, StoredFile>)
      ensures cache == map[] && this.files == files && events == []
    {
      cache := map[];
      this.files := files;
      events := [];
    }

    /** The `names` property: the base names of the stored files. Every
        dot-free name saved under `<name>.jpg` is among them. */
    function StoredNames(): (names: set<string>)
      reads this
      ensures forall n :: '.' !in n && ImageFileName(n) in files ==> n in names
    {
      var names := set f | f in files :: BaseName(f);
      assert forall n :: '.' !in n && ImageFileName(n) in files ==> n in names by {
        forall n | '.' !in n && ImageFileName(n) in files
          ensures n in names
        {
          BaseNameOfImageFile(n);
        }
      }
      names
    }

    /** `get`: the cached bitmap if there is one, without touching the disk;
        otherwise the bitmap decoded from `<name>.jpg`, which is then cached.
        `readSucceeds` is false when the directory or the stream cannot be
        had; a missing or damaged file cannot be decoded either. */
    method Get(name: string, readSucceeds: bool) returns (bitmap: Option<Bitmap>)
      modifies this`cache
      ensures name in old(cache) ==> bitmap == Some(old(cache)[name]) && cache == old(cache)
      ensures name !in old(cache) && readSucceeds && Readable(name) ==>
        bitmap == Some(files[ImageFileName(name)].bitmap) &&
        cache == old(cache)[name := files[ImageFileName(name)].bitmap]
      ensures name !in old(cache) && !(readSucceeds && Readable(name)) ==>
        bitmap == None && cache == old(cache)
    {
      if name in cache {
        return Some(cache[name]);
      }
      var file := ImageFileName(name);
      if !readSucceeds || file !in files {
        return None;
      }
      match files[file] {
        case Damaged =>
          return None;
        case Jpeg(decoded) =>
          cache := cache[name := decoded];
          bitmap := Some(decoded);
      }
    }

    /** The file of `name` exists and decodes to a bitmap. */
    predicate Readable(name: string)
      reads this
    {
      ImageFileName(name) in files && files[ImageFileName(name)].Jpeg?
    }

    /** `save` as written: writes the thumbnail of `bitmap` to `<name>.jpg`,
        then caches and announces it unless the directory or the stream was
        missing or something threw. The Boolean `compress` returns is not
        looked at, so a failed compression is cached and announced too. */
    method Save(name: string, bitmap: Bitmap, outcome: WriteOutcome)
      modifies this`cache, this`files, this`events
      ensures outcome.NoDirectory? || outcome.NoStream? || outcome.OpenThrew? ==>
        files == old(files) && cache == old(cache) && events == old(events)
      ensures outcome.CompressThrew? ==>
        files == old(files)[ImageFileName(name) := Damaged] && cache == old(cache) && events == old(events)
      ensures outcome.Compressed? ==>
        files == old(files)[ImageFileName(name) := if outcome.ok then Jpeg(Thumbnail(bitmap)) else Damaged] &&
        cache == old(cache)[name := Thumbnail(bitmap)] &&
        events == old(events) + [ImageSaved(name, Thumbnail(bitmap))]
    {
      var processed := Thumbnail(bitmap);
      var file := ImageFileName(name);
      match outcome {
        case NoDirectory =>
        case NoStream =>
        case OpenThrew =>
        case CompressThrew =>
          files := files[file := Damaged];
        case Compressed(ok) =>
          files := files[file := if ok then Jpeg(processed) else Damaged];
          cache := cache[name := processed];
          events := events + [ImageSaved(name, processed)];
      }
    }

    /** `save` as evidently intended: a compression that reports failure is
        treated like one that throws, so an image is cached and announced
        only once its thumbnail is on disk. */
    method SaveChecked(name: string, bitmap: Bitmap, outcome: WriteOutcome)
      modifies this`cache, this`files, this`events
      ensures events != old(events) ==>
        Readable(name) && files[ImageFileName(name)] == Jpeg(Thumbnail(bitmap)) &&
        cache == old(cache)[name := Thumbnail(bitmap)] &&
        events == old(events) + [ImageSaved(name, Thumbnail(bitmap))]
      ensures outcome == Compressed(true) <==> events != old(events)
      ensures outcome.NoDirectory? || outcome.NoStream? || outcome.OpenThrew? ==>
        files == old(files) && cache == old(cache)
      ensures outcome.CompressThrew? || outcome == Compressed(false) ==>
        files == old(files)[ImageFileName(name) := Damaged] && cache == old(cache)
      ensures outcome == Compressed(true) ==>
        files == old(files)[ImageFileName(name) := Jpeg(Thumbnail(bitmap))]
    {
      var processed := Thumbnail(bitmap);
      var file := ImageFileName(name);
      match outcome {
        case NoDirectory =>
        case NoStream =>
        case OpenThrew =>
        case CompressThrew =>
          files := files[file := Damaged];
        case Compressed(ok) =>
          if !ok {
            files := files[file := Damaged];
            return;
          }
          files := files[file := Jpeg(processed)];
          cache := cache[name := processed];
          events := events + [ImageSaved(name, processed)];
      }
    }

    /** `clearUnusedImages`: deletes `<n>.jpg` for every stored name `n` that
        is not the id of a listed vehicle. Deleting the names in
        `undeletable` fails and is skipped. */
    method ClearUnusedImages(documents: seq<VehicleDocument>, undeletable: set<string>)
      modifies this`files
      ensures files.Keys == old(files).Keys - FilesOf(old(StoredNames()) - VehicleIds(documents) - undeletable)
      ensures forall f :: f in files ==> files[f] == old(files)[f]
      ensures forall id :: id in VehicleIds(documents) && ImageFileName(id) in old(files) ==>
        ImageFileName(id) in files
      ensures forall n :: '.' !in n && ImageFileName(n) in old(files) && n !in VehicleIds(documents) && n !in undeletable ==>
        ImageFileName(n) !in files
    {
      var ids := VehicleIds(documents);
      var unused := StoredNames() - ids;
      var remaining := unused;
      while remaining != {}
        invariant remaining <= unused
        invariant files.Keys == old(files).Keys - FilesOf(unused - remaining - undeletable)
        invariant forall f :: f in files ==> files[f] == old(files)[f]
        decreases remaining
      {
        var n :| n in remaining;
        ghost var done := unused - remaining - undeletable;
        if n !in undeletable {
          assert FilesOf(done + {n}) == FilesOf(done) + {ImageFileName(n)};
          assert unused - (remaining - {n}) - undeletable == done + {n};
          files := files - {ImageFileName(n)};
        } else {
          assert unused - (remaining - {n}) - undeletable == done;
        }
        remaining := remaining - {n};
      }
      assert unused - remaining - undeletable == unused - undeletable;
      forall id | id in ids && ImageFileName(id) in old(files)
        ensures ImageFileName(id) in files
      {
        if ImageFileName(id) !in files {
          var n :| n in unused - undeletable && ImageFileName(n) == ImageFileName(id);
          ImageFileNameInjective(n, id);
        }
      }
      forall n | '.' !in n && ImageFileName(n) in old(files) && n !in ids && n !in undeletable
        ensures ImageFileName(n) !in files
      {
        BaseNameOfImageFile(n);
        assert n in old(StoredNames());
      }
    }
  }

  /** With `save` as written, a compression that reports failure still
      caches and announces an image whose file cannot be decoded, while the
      checked save announces nothing for the same outcome. */
  method SaveAnnouncesDamagedFile(b: Bitmap) returns (written: ImageManager, checked: ImageManager)
    ensures written.events == [ImageSaved("car", Thumbnail(b))]
    ensures written.cache == map["car" := Thumbnail(b)]
    ensures written.files == map[ImageFileName("car") := Damaged] && !written.Readable("car")
    ensures checked.events == [] && checked.cache == map[]
  {
    written := new ImageManager(map[]);
    written.Save("car", b, Compressed(false));
    checked := new ImageManager(map[]);
    checked.SaveChecked("car", b, Compressed(false));
  }
}
