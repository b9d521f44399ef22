/** lib/cloudinary.ts: the computations around the Cloudinary SDK calls. The
    calls themselves (`upload_stream`, `destroy`, `cloudinary.url`) are foreign;
    an upload's outcome is taken as given. */
module Cloudinary {
  import opened Wrappers
  import opened Text

  /** The `resource_type` an upload asks for. */
  datatype ResourceType = Raw | Image | Auto

  /** The extensions of `/\.(jpg|jpeg|png|gif|webp|svg)$/i`. */
  const ImageExtensions: seq<string> := ["jpg", "jpeg", "png", "gif", "webp", "svg"]

  /** `filename.toLowerCase().endsWith('.pdf')`: such a name has the extension `pdf`. */
  predicate IsPdf(filename: string): (b: bool)
    ensures b ==> FileExtension(filename) == "pdf"
  {
    var b := EndsWith(ToLower(filename), ".pdf");
    assert b ==> FileExtension(filename) == "pdf" by {
      if b {
        assert '.' !in "pdf";
        ExtensionOfDottedSuffix(filename, "pdf");
      }
    }
    b
  }

  /** `/\.(jpg|jpeg|png|gif|webp|svg)$/i.test(filename)`: such a name has one
      of those extensions. */
  predicate IsImage(filename: string): (b: bool)
    ensures b ==> FileExtension(filename) in ImageExtensions
  {
    var b := exists e :: e in ImageExtensions && EndsWith(ToLower(filename), "." + e);
    assert b ==> FileExtension(filename) in ImageExtensions by {
      if b {
        var e :| e in ImageExtensions && EndsWith(ToLower(filename), "." + e);
        assert '.' !in e;
        ExtensionOfDottedSuffix(filename, e);
      }
    }
    b
  }

  /** An image's extension is one of the image extensions, so an image is never also a PDF. */
  lemma {:induction false} ImageExtension(filename: string)
    ensures IsImage(filename) ==> FileExtension(filename) in ImageExtensions && !IsPdf(filename)
  {
  }

  /** The `resource_type` choice of `uploadToCloudinary`: PDFs are raw, images are images, and
      everything else is left to Cloudinary to detect. Exactly one applies. */
  function Classify(filename: string): (rt: ResourceType)
    ensures rt == Raw <==> IsPdf(filename)
    ensures rt == Image <==> IsImage(filename)
    ensures rt == Auto <==> !IsPdf(filename) && !IsImage(filename)
  {
    ImageExtension(filename);
    if IsPdf(filename) then Raw
    else if IsImage(filename) then Image
    else Auto
  }

  /** The options object passed to `upload_stream`. */
  datatype UploadOptions = UploadOptions(
    resourceType: ResourceType,
    folder: string,
    useFilename: bool,
    uniqueFilename: bool,
    overwrite: bool,
    tags: seq<string>,
    format: Option<string>)

  /** What `uploadToCloudinary` asks of the store for a file name and folder:
      its classification, the folder (by default `documents`), a store-made
      unique name that never overwrites, and for images only the format, which
      is the file's own lower-cased extension. */
  ghost predicate OptionsFor(opts: UploadOptions, filename: string, folder: Option<string>) {
    && opts.resourceType == Classify(filename)
    && opts.folder == (if Truthy(folder) then folder.value else "documents")
    && opts.useFilename && opts.uniqueFilename && !opts.overwrite
    && opts.tags == ["document-management"]
    && (opts.format.Some? <==> opts.resourceType == Image)
    && (opts.format.Some? ==> opts.format.value == FileExtension(filename) && opts.format.value in ImageExtensions)
  }

  /** The options `uploadToCloudinary` sends for a file name and folder. */
  function UploadOptionsFor(filename: string, folder: Option<string>): (opts: UploadOptions)
    ensures OptionsFor(opts, filename, folder)
  {
    ImageExtension(filename);
    var resourceType := Classify(filename);
    UploadOptions(
      resourceType, OrDefault(folder, "documents"), true, true, false, ["document-management"],
      if resourceType == Image then Some(FileExtension(filename)) else None)
  }

  /** Builds the upload options as `uploadToCloudinary` does: the object
      literal first, then `format` added when the name is an image with an
      extension. */
  method BuildUploadOptions(filename: string, folder: Option<string>) returns (opts: UploadOptions)
    ensures opts == UploadOptionsFor(filename, folder)
  {
    var isPdf := IsPdf(filename);
    var isImage := IsImage(filename);
    var fileExtension := FileExtension(filename);
    opts := UploadOptions(
      if isPdf then Raw else if isImage then Image else Auto,
      OrDefault(folder, "documents"),
      true, true, false,
      ["document-management"],
      None);
    if isImage && fileExtension != "" {
      opts := opts.(format := Some(fileExtension));
    }
    ImageExtension(filename);
  }

  /** The fields of the SDK's upload result that the application reads. */
  datatype UploadResult = UploadResult(
    publicId: string,
    secureUrl: string,
    resourceType: string,
    format: string,
    bytes: nat)

  /** How the foreign upload call ends: with a result, or by rejecting. */
  datatype UploadReply = Uploaded(result: UploadResult) | UploadError

  /** One `upload_stream` call: the file name and the options sent with it. */
  datatype UploadCall = UploadCall(filename: string, options: UploadOptions)

  /** The blob store as the application sees it: the log of upload calls made
      to it. What the store does with a call is foreign; its reply is given. */
  class BlobStore {
    var calls: seq<UploadCall>

    constructor ()
      ensures calls == []
    {
      calls := [];
    }

    /** `uploadToCloudinary`: builds the options, issues one call, and passes
        on the store's reply. */
    method Upload(filename: string, folder: Option<string>, reply: UploadReply) returns (r: UploadReply)
      modifies this
      ensures calls == old(calls) + [UploadCall(filename, UploadOptionsFor(filename, folder))]
      ensures r == reply
    {
      var opts := BuildUploadOptions(filename, folder);
      calls := calls + [UploadCall(filename, opts)];
      r := reply;
    }
  }

  /** The options object passed to `cloudinary.url`. */
  datatype UrlOptions = UrlOptions(
    secure: bool,
    resourceType: string,
    signUrl: bool,
    deliveryType: string,
    format: Option<string>)

  /** The options `getCloudinaryUrl` builds for a view URL: signed, secure,
      `upload` delivery, resource type `raw` unless given, and the format only
      when it is present, non-empty and not `unknown`. */
  method ViewUrlOptions(format: Option<string>, resourceType: Option<string>) returns (opts: UrlOptions)
    ensures opts.secure && opts.signUrl && opts.deliveryType == "upload"
    ensures opts.resourceType == resourceType.GetOr("raw")
    ensures opts.format.Some? <==> Truthy(format) && format.value != "unknown"
    ensures opts.format.Some? ==> opts.format == format
  {
    opts := UrlOptions(true, resourceType.GetOr("raw"), true, "upload", None);
    if Truthy(format) && format.value != "unknown" {
      opts := opts.(format := format);
    }
  }

  /** The public id `getDownloadUrl` asks a URL for: for raw files the
      lower-cased extension of the file name is appended, unless the id
      already ends with it. */
  function DownloadPublicId(publicId: string, filename: string, resourceType: Option<string>): (full: string)
    ensures full == publicId || full == publicId + "." + FileExtension(filename)
    ensures full != publicId <==>
      && resourceType.GetOr("raw") == "raw" && FileExtension(filename) != ""
      && !EndsWith(publicId, "." + FileExtension(filename))
    ensures resourceType.GetOr("raw") != "raw" || FileExtension(filename) == "" ==> full == publicId
    ensures resourceType.GetOr("raw") == "raw" && FileExtension(filename) != "" ==>
      EndsWith(full, "." + FileExtension(filename))
  {
    var ext := FileExtension(filename);
    if resourceType.GetOr("raw") == "raw" && ext != "" && !EndsWith(publicId, "." + ext) then
      var full := publicId + "." + ext;
      assert full[|full| - |"." + ext|..] == "." + ext;
      full
    else publicId
  }

  /** `getDownloadUrl` step by step: `fullPublicId` starts as the given id and is
      reassigned when an extension has to be appended. The URL options carry
      no format. */
  method DownloadUrlRequest(publicId: string, filename: string, resourceType: Option<string>)
    returns (fullPublicId: string, opts: UrlOptions)
    ensures fullPublicId == DownloadPublicId(publicId, filename, resourceType)
    ensures opts == UrlOptions(true, resourceType.GetOr("raw"), true, "upload", None)
  {
    var fileExtension := FileExtension(filename);
    var rt := resourceType.GetOr("raw");
    fullPublicId := publicId;
    if rt == "raw" && fileExtension != "" && !EndsWith(publicId, "." + fileExtension) {
      fullPublicId := publicId + "." + fileExtension;
    }
    opts := UrlOptions(true, rt, true, "upload", None);
  }

  /** Feeding the extended id back in leaves it as it is. */
  lemma DownloadIdIdempotent(publicId: string, filename: string, resourceType: Option<string>)
    ensures var full := DownloadPublicId(publicId, filename, resourceType);
      DownloadPublicId(full, filename, resourceType) == full
  {
  }

  /** A name without a dot is its own (lower-cased) extension, so `README`
      gets `.readme` appended to a raw public id. */
  lemma {:induction false} DotlessNameIsItsOwnExtension(publicId: string, filename: string)
    requires filename != [] && '.' !in filename
    requires !EndsWith(publicId, "." + ToLower(filename))
    ensures DownloadPublicId(publicId, filename, None) == publicId + "." + ToLower(filename)
  {
    AfterLastWithoutSeparator(filename, '.');
  }
}
