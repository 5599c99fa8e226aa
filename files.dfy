/**
 * The download guard for processed batch files
 * (`download_processed_file` in api/controllers/files_controller.py).
 *
 * The temporary directory is modelled as a map from file name to the time
 * in seconds that `os.path.getctime` reports for it (the inode change time
 * on Unix, the creation time on Windows); the current time is a parameter.
 * A name is checked before the directory is consulted, a missing file is
 * reported as not found, and a file older than an hour is deleted and
 * reported as expired.
 */
module Files {

  const MaxAgeSeconds: real := 3600.0

  const BadRequest: int := 400
  const NotFound: int := 404
  const InternalServerError: int := 500

  const InvalidNameDetail: string := "Nombre de archivo inválido"
  const NotFoundDetail: string := "Archivo no encontrado"
  const ExpiredDetail: string := "Archivo expirado"
  const DownloadErrorDetail: string := "Error descargando archivo"

  const CsvSuffix: string := ".csv"
  const CsvMediaType: string := "text/csv"

  datatype Response =
    | FileResponse(name: string, mediaType: string)
    | HttpError(status: int, detail: string)

  /** Python's `s.endswith(suffix)`. */
  predicate EndsWith(s: string, suffix: string)
  {
    |suffix| <= |s| && s[|s| - |suffix|..] == suffix
  }

  /** Python's `".." in s`: two adjacent dots somewhere in `s`. */
  predicate ContainsDoubleDot(s: string)
  {
    exists i :: 0 <= i < |s| - 1 && s[i] == '.' && s[i + 1] == '.'
  }

  /** The name check: a ".csv" name with no ".." and no '/'. */
  predicate ValidFilename(name: string)
  {
    EndsWith(name, CsvSuffix) && !ContainsDoubleDot(name) && '/' !in name
  }

  /** Which of the four outcomes the guard chain reaches. */
  datatype Verdict = Rejected | Absent | Expired | Servable

  /** The guard chain: the name first, then existence, then age. */
  function Classify(filename: string, created: map<string, real>, now: real): (v: Verdict)
    ensures v == Rejected <==> !ValidFilename(filename)
    ensures v == Absent <==> ValidFilename(filename) && filename !in created
    ensures v == Expired <==>
      ValidFilename(filename) && filename in created && now - created[filename] > MaxAgeSeconds
    ensures v == Servable <==>
      ValidFilename(filename) && filename in created && now - created[filename] <= MaxAgeSeconds
  {
    if !ValidFilename(filename) then Rejected
    else if filename !in created then Absent
    else if now - created[filename] > MaxAgeSeconds then Expired
    else Servable
  }

  /** A rejected name is rejected whatever the directory holds and whatever the time. */
  lemma RejectionIgnoresDirectory(filename: string, c1: map<string, real>, now1: real, c2: map<string, real>, now2: real)
    requires Classify(filename, c1, now1) == Rejected
    ensures Classify(filename, c2, now2) == Rejected
  {
  }

  /** A name with '/' or ".." is rejected even when it ends in ".csv". */
  lemma TraversalRejected(filename: string, i: nat)
    requires EndsWith(filename, CsvSuffix)
    requires '/' in filename || (i + 1 < |filename| && filename[i] == '.' && filename[i + 1] == '.')
    ensures !ValidFilename(filename)
  {
  }

  /** The age limit is inclusive: a file exactly an hour old is still served, one a second older is not. */
  lemma ExpiryBoundary(filename: string, created: map<string, real>, now: real)
    requires ValidFilename(filename) && filename in created
    ensures now - created[filename] == 3600.0 ==> Classify(filename, created, now) == Servable
    ensures now - created[filename] == 3601.0 ==> Classify(filename, created, now) == Expired
  {
  }

  class TempDirectory {
    /** The time `os.path.getctime` reports for each file in the directory. */
    var created: map<string, real>

    constructor (files: map<string, real>)
      ensures created == files
    {
      created := files;
    }

    /**
     * `download_processed_file(filename)` at time `now`. `unlinkFails` says
     * whether deleting an expired file raises; that error, like any error
     * that is not an HTTP error, becomes a 500.
     */
    method Download(filename: string, now: real, unlinkFails: bool) returns (r: Response)
      modifies this
      ensures Classify(filename, old(created), now) == Rejected ==>
        r == HttpError(BadRequest, InvalidNameDetail) && created == old(created)
      ensures Classify(filename, old(created), now) == Absent ==>
        r == HttpError(NotFound, NotFoundDetail) && created == old(created)
      ensures Classify(filename, old(created), now) == Expired && !unlinkFails ==>
        r == HttpError(NotFound, ExpiredDetail) && created == old(created) - {filename}
      ensures Classify(filename, old(created), now) == Expired && unlinkFails ==>
        r == HttpError(InternalServerError, DownloadErrorDetail) && created == old(created)
      ensures Classify(filename, old(created), now) == Servable ==>
        r == FileResponse(filename, CsvMediaType) && created == old(created)
    {
      if !ValidFilename(filename) {
        return HttpError(BadRequest, InvalidNameDetail);
      }
      if filename !in created {
        return HttpError(NotFound, NotFoundDetail);
      }
      var fileAge := created[filename];
      if now - fileAge > MaxAgeSeconds {
        if unlinkFails {
          return HttpError(InternalServerError, DownloadErrorDetail);
        }
        created := created - {filename};
        return HttpError(NotFound, ExpiredDetail);
      }
      r := FileResponse(filename, CsvMediaType);
    }
  }
}
