/**
  The result finalizer (`sendResult`): which part of the result is shown in the
  chat reply, and whether and where the full artifact is uploaded.
*/
module Finalize {
  import opened Wrappers
  import opened GoStrings
  import opened Tasks
  import opened TextUtil
  import opened Execution

  const MaxDisplayLength: nat := 3000
  const TruncationNotice: Bytes := Ascii("\n\n... [Result truncated, see full output in file]")

  datatype Display = Display(text: Bytes, truncated: bool)

  /**
    The displayed result: the whole result when it has at most 3000 bytes (exactly
    3000 is not truncated), otherwise its first 3000 bytes followed by the notice.
    Either way the display starts with the first min(length, 3000) bytes of the
    result and is never longer than 3000 bytes plus the notice.
  */
  function Truncate(result: Bytes): (d: Display)
    ensures d.truncated <==> |result| > MaxDisplayLength
    ensures !d.truncated ==> d.text == result
    ensures d.truncated ==> d.text == result[..MaxDisplayLength] + TruncationNotice
    ensures var n := if |result| <= MaxDisplayLength then |result| else MaxDisplayLength;
            n <= |d.text| && d.text[..n] == result[..n]
    ensures |d.text| <= MaxDisplayLength + |TruncationNotice|
  {
    if |result| > MaxDisplayLength then Display(result[..MaxDisplayLength] + TruncationNotice, true)
    else Display(result, false)
  }

  /** Where the full artifact goes: a group's root folder, or the user's private chat. */
  datatype Upload =
    | GroupUpload(groupId: int, path: Bytes, name: Bytes, folder: Bytes)
    | PrivateUpload(userId: int, path: Bytes, name: Bytes)

  /**
    The upload after a truncated reply: none unless the result was truncated and
    there is an artifact path; to the group when the message came from one
    (positive group id), otherwise privately to the user; always under the name
    `analysis_<id>.txt`.
  */
  function UploadFor(truncated: bool, outputPath: Bytes, taskId: Bytes, userId: int, groupId: int): (u: Option<Upload>)
    ensures u.Some? <==> truncated && outputPath != []
    ensures u.Some? ==> (u.value.GroupUpload? <==> groupId > 0)
    ensures u.Some? && u.value.GroupUpload? ==> u.value.groupId == groupId && u.value.folder == [Slash]
    ensures u.Some? && u.value.PrivateUpload? ==> u.value.userId == userId
    ensures u.Some? ==> u.value.path == outputPath && u.value.name == ArtifactName(taskId)
  {
    if truncated && outputPath != [] then
      if groupId > 0 then Some(GroupUpload(groupId, outputPath, ArtifactName(taskId), [Slash]))
      else Some(PrivateUpload(userId, outputPath, ArtifactName(taskId)))
    else None
  }

  /** The reply a finished task produces. */
  datatype Reply =
    | FailureReport(taskId: Bytes, duration: Duration, error: Bytes)
    | ReadFailureReport(taskId: Bytes, outputPath: Bytes, readError: Bytes)
    | SuccessReport(taskId: Bytes, duration: Duration, requestId: Bytes, outputPath: Bytes,
                    display: Bytes, upload: Option<Upload>)

  /**
    `sendResult`: the success report carries the request id found in the result
    (empty when there is none), the artifact path, the displayed text and the
    upload, if any.
  */
  function SendResult(taskId: Bytes, duration: Duration, outputPath: Bytes, result: Bytes,
                      userId: int, groupId: int): (reply: Reply)
    ensures reply.SuccessReport? && reply.taskId == taskId && reply.outputPath == outputPath
    ensures reply.duration == duration
    ensures reply.requestId == ExtractRequestId(result)
    ensures reply.display == Truncate(result).text
    ensures reply.upload == UploadFor(Truncate(result).truncated, outputPath, taskId, userId, groupId)
  {
    var shown := Truncate(result);
    SuccessReport(taskId, duration, ExtractRequestId(result), outputPath, shown.text,
                  UploadFor(shown.truncated, outputPath, taskId, userId, groupId))
  }

  /**
    The full artifact is uploaded exactly when the result is longer than 3000
    bytes and there is an artifact path, and the upload's name is the last part
    of that path when it is the task's artifact path.
  */
  lemma SendResultUploadsIffTooLong(taskId: Bytes, duration: Duration, dir: Bytes, result: Bytes,
                                    userId: int, groupId: int)
    ensures var path := ArtifactPath(dir, taskId);
            var reply := SendResult(taskId, duration, path, result, userId, groupId);
            && (reply.upload.Some? <==> |result| > MaxDisplayLength)
            && (reply.upload.Some? ==>
                  var p := reply.upload.value.path;
                  var n := reply.upload.value.name;
                  |n| <= |p| && p[|p| - |n|..] == n)
  {
    ArtifactPathEndsWithName(dir, taskId);
  }
}
