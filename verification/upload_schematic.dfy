/** `src/routes/upload/UploadSchematicPage.tsx`: choosing a schematic either
    as a `.msch` file or as Base64 code from the clipboard, tagging it, and
    submitting it. */
module UploadSchematic {
  import opened Common
  import opened Config
  import Text
  import Utils
  import Seqs
  import Tags
  import Base64

  datatype File = File(name: string)

  datatype Preview = Preview(name: string, image: string, description: string)

  /** The schematic part of a form: a file or a code string. */
  datatype Payload = FilePart(file: File) | CodePart(code: string)

  /** The upload form: the tags field and the schematic. */
  datatype Submission = Submission(tags: string, payload: Payload)

  /** Clipboard code must start with this: the first five Base64 characters
      of every text beginning with the file magic `msch`. */
  const SCHEMATIC_CODE_PREFIX: string := "bXNja"

  /** The bytes of `msch`, with which every schematic file begins. */
  const SCHEMATIC_MAGIC: seq<Base64.byte> := [109, 115, 99, 104]

  predicate IsSchematicFile(f: File)
  {
    Utils.GetFileExtension(f.name) == SCHEMATIC_FILE_EXTENSION
  }

  predicate IsSchematicCode(text: string)
  {
    Text.StartsWith(text, SCHEMATIC_CODE_PREFIX)
  }

  /** The code check accepts the Base64 form of every schematic file:
      whatever follows the magic, the encoding starts with `bXNja`. */
  lemma SchematicFilesPassCodeCheck(rest: seq<Base64.byte>)
    ensures IsSchematicCode(Base64.Encode(SCHEMATIC_MAGIC + rest))
  {
    var bytes := SCHEMATIC_MAGIC + rest;
    var tail := bytes[3..];
    assert bytes[0] == 109 && bytes[1] == 115 && bytes[2] == 99 && tail[0] == 104;
    assert Base64.Encode(bytes) == Base64.Quantum(109, 115, 99) + Base64.Encode(tail);
    Base64.MagicQuantum();
    Base64.EncodeHead(tail);
    assert Base64.Digit(104 / 4) == 'a';
  }

  /** What `handleSubmit` sends: nothing without tags; else the file when it
      has the schematic extension; else the code when it is longer than 8
      UTF-16 code units (`code.length`); else nothing. */
  function SubmissionFor(file: Option<File>, code: string, tags: seq<Tags.TagChoice>): (sent: Option<Submission>)
    ensures sent.Some? ==> |tags| > 0 && sent.value.tags == Tags.TagString(tags)
    ensures sent.Some? && sent.value.payload.FilePart? ==>
              file == Some(sent.value.payload.file) && IsSchematicFile(sent.value.payload.file)
    ensures sent.Some? && sent.value.payload.CodePart? ==>
              sent.value.payload.code == code && Text.Utf16Length(code) > 8 && (file.None? || !IsSchematicFile(file.value))
    ensures |tags| > 0 && ((file.Some? && IsSchematicFile(file.value)) || Text.Utf16Length(code) > 8) ==> sent.Some?
  {
    if |tags| == 0 then None
    else if file.Some? && IsSchematicFile(file.value) then Some(Submission(Tags.TagString(tags), FilePart(file.value)))
    else if Text.Utf16Length(code) > 8 then Some(Submission(Tags.TagString(tags), CodePart(code)))
    else None
  }

  /** Code of eight characters, one of them outside the Basic Multilingual
      Plane, is nine code units long and is sent. */
  lemma CodeLengthCountsCodeUnits(tags: seq<Tags.TagChoice>)
    requires |tags| > 0
    ensures |"bXNja\U{1F600}ab"| == 8
    ensures SubmissionFor(None, "bXNja\U{1F600}ab", tags).Some?
  {
    var code := "bXNja\U{1F600}ab";
    assert code[1..] == "XNja\U{1F600}ab";
    assert code[2..] == "Nja\U{1F600}ab";
    assert code[3..] == "ja\U{1F600}ab";
    assert code[4..] == "a\U{1F600}ab";
    assert code[5..] == "\U{1F600}ab";
    assert code[6..] == "ab";
    assert code[7..] == "b";
    assert code[8..] == "";
  }

  /** What the preview request does to the preview: the body of any answer
      becomes the preview (the status is not looked at); a rejection is not
      caught and changes nothing. */
  function PreviewAfter(preview: Option<Preview>, reply: Reply<Preview>): (shown: Option<Preview>)
    ensures reply.Rejected? ==> shown == preview
    ensures reply.Answered? ==> shown == reply.data
  {
    match reply
    case Answered(_, data) => data
    case Rejected => preview
  }

  /** The page component's state. */
  class UploadSchematicPage {
    var file: Option<File>
    var code: string
    var preview: Option<Preview>
    var tag: string
    var tags: seq<Tags.TagChoice>

    /** A stored file has the schematic extension, and a file and code are
      never both held. */
    ghost predicate Valid()
      reads this
    {
      (file.Some? ==> IsSchematicFile(file.value)) && (file.None? || code == "")
    }

    constructor ()
      ensures Valid()
      ensures file == None && code == "" && preview == None && tag == "" && tags == []
    {
      file := None;
      code := "";
      preview := None;
      tag := "";
      tags := [];
    }

    /** `handleFileChange`: `files` is the input's file list (`None` for
      `null`). Without a file, or when the first file's extension is not
      `msch`, nothing changes; otherwise the file is stored, the code
      cleared, and the file sent for a preview. */
    method HandleFileChange(files: Option<seq<File>>, previewReply: Reply<Preview>)
      returns (previewRequest: Option<Payload>)
      requires Valid()
      modifies this
      ensures Valid()
      ensures files.None? || |files.value| == 0 || !IsSchematicFile(files.value[0]) ==>
                previewRequest == None && file == old(file) && code == old(code) && preview == old(preview)
      ensures files.Some? && |files.value| > 0 && IsSchematicFile(files.value[0]) ==>
                && previewRequest == Some(FilePart(files.value[0]))
                && file == Some(files.value[0]) && code == ""
                && preview == PreviewAfter(old(preview), previewReply)
      ensures tag == old(tag) && tags == old(tags)
    {
      previewRequest := None;
      if files.None? || |files.value| <= 0 {
        return;
      }
      var extension := Utils.GetFileExtension(files.value[0].name);
      if extension != SCHEMATIC_FILE_EXTENSION {
        return;
      }
      file := Some(files.value[0]);
      code := "";
      previewRequest := Some(FilePart(files.value[0]));
      preview := PreviewAfter(preview, previewReply);
    }

    /** `handleCodeChange`, once the clipboard text has been read: text that
      does not start with `bXNja` is refused and nothing changes; otherwise
      the code is stored, the file dropped, and the code sent for a preview. */
    method HandleCodeChange(text: string, previewReply: Reply<Preview>)
      returns (previewRequest: Option<Payload>)
      requires Valid()
      modifies this
      ensures Valid()
      ensures !IsSchematicCode(text) ==>
                previewRequest == None && file == old(file) && code == old(code) && preview == old(preview)
      ensures IsSchematicCode(text) ==>
                && previewRequest == Some(CodePart(text))
                && code == text && file == None
                && preview == PreviewAfter(old(preview), previewReply)
      ensures tag == old(tag) && tags == old(tags)
    {
      previewRequest := None;
      if !IsSchematicCode(text) {
        return;
      }
      code := text;
      file := None;
      previewRequest := Some(CodePart(text));
      preview := PreviewAfter(preview, previewReply);
    }

    /** `handleSubmit`: sends `SubmissionFor` the current state, if anything;
      a successful upload clears code, file, preview and tags, and anything
      else leaves the state as it was. */
    method HandleSubmit(uploadSucceeded: bool) returns (sent: Option<Submission>)
      requires Valid()
      modifies this
      ensures Valid()
      ensures sent == SubmissionFor(old(file), old(code), old(tags))
      ensures sent.Some? && uploadSucceeded ==> code == "" && file == None && preview == None && tags == []
      ensures !(sent.Some? && uploadSucceeded) ==>
                code == old(code) && file == old(file) && preview == old(preview) && tags == old(tags)
      ensures tag == old(tag)
    {
      sent := None;
      if |tags| == 0 {
        return;
      }
      var tagString := Tags.TagString(tags);
      var payload: Payload;
      if file.Some? && Utils.GetFileExtension(file.value.name) == SCHEMATIC_FILE_EXTENSION {
        payload := FilePart(file.value);
      } else if Text.Utf16Length(code) > 8 {
        payload := CodePart(code);
      } else {
        return;
      }
      sent := Some(Submission(tagString, payload));
      if uploadSucceeded {
        code := "";
        file := None;
        preview := None;
        tags := [];
      }
    }

    /** `handleRemoveTag(index)` */
    method HandleRemoveTag(index: int)
      requires Valid()
      modifies this
      ensures Valid()
      ensures tags == Seqs.RemoveIndex(old(tags), index)
      ensures 0 <= index < |old(tags)| ==> tags == old(tags)[..index] + old(tags)[index + 1..]
      ensures !(0 <= index < |old(tags)|) ==> tags == old(tags)
      ensures file == old(file) && code == old(code) && preview == old(preview) && tag == old(tag)
    {
      Seqs.RemoveIndexSpec(tags, index);
      tags := Seqs.RemoveIndex(tags, index);
    }

    /** `handleAddTag(tag)`: a missing tag is ignored; otherwise it is
      appended without removing tags of the same name (the filter's result is
      thrown away) and the query is cleared. */
    method HandleAddTag(choice: Option<Tags.TagChoice>)
      requires Valid()
      modifies this
      ensures Valid()
      ensures choice.None? ==> tags == old(tags) && tag == old(tag)
      ensures choice.Some? ==> tags == old(tags) + [choice.value] && tag == ""
      ensures file == old(file) && code == old(code) && preview == old(preview)
    {
      if choice.None? {
        return;
      }
      tags := tags + [choice.value];
      tag := "";
    }
  }

  /** A file accepted by `handleFileChange` is what gets uploaded once a tag
      is chosen, whatever code was typed before. */
  lemma StoredFileIsSubmitted(f: File, code: string, tags: seq<Tags.TagChoice>)
    requires IsSchematicFile(f) && |tags| > 0
    ensures SubmissionFor(Some(f), code, tags) == Some(Submission(Tags.TagString(tags), FilePart(f)))
  {
  }

  /** Without tags nothing is uploaded, and without a schematic file the code
      is uploaded exactly when it is longer than 8 UTF-16 code units. */
  lemma SubmitWithoutFile(file: Option<File>, code: string, tags: seq<Tags.TagChoice>)
    requires file.None? || !IsSchematicFile(file.value)
    ensures |tags| == 0 ==> SubmissionFor(file, code, tags) == None
    ensures |tags| > 0 ==> (SubmissionFor(file, code, tags).Some? <==> Text.Utf16Length(code) > 8)
    ensures SubmissionFor(file, code, tags).Some? ==> SubmissionFor(file, code, tags).value.payload == CodePart(code)
  {
  }
}
