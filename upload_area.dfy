/**
 * `UploadArea`: intake of an image through the file picker or by drag and
 * drop. The `onImageSelected` callback is recorded as the trace `selected`
 * of the files passed to it; `alert` calls are recorded in `notices`.
 */
module Upload {
  import opened Wrappers
  import opened JsString
  import opened Types

  const ImageTypePrefix := "image/"
  const InvalidDropNotice := "Please drop a valid image file"

  /** `file.type.startsWith('image/')` */
  predicate IsImageType(mimeType: string) {
    StartsWith(mimeType, ImageTypePrefix)
  }

  /** The first file of a `FileList`, when the list exists and is not empty. */
  function FirstFile(files: Option<seq<File>>): Option<File> {
    if files.Some? && |files.value| > 0 then Some(files.value[0]) else None
  }

  class UploadArea {
    /** The `disabled` prop; `undefined` reads as `false`. */
    const disabled: bool
    /** The `isDragOver` state. */
    var isDragOver: bool
    /** Every file handed to `onImageSelected`, oldest first. */
    var selected: seq<File>
    /** Every notice raised with `alert`, oldest first. */
    var notices: seq<string>

    /** A disabled area never shows the drag highlight. */
    ghost predicate Valid()
      reads this
    {
      disabled ==> !isDragOver
    }

    constructor (disabled: bool)
      ensures Valid()
      ensures this.disabled == disabled && !isDragOver && selected == [] && notices == []
    {
      this.disabled := disabled;
      isDragOver := false;
      selected := [];
      notices := [];
    }

    /** `handleFileChange`: the picker's first file, if any, goes to the callback, unvalidated. */
    method HandleFileChange(files: Option<seq<File>>)
      requires Valid()
      modifies this
      ensures Valid()
      ensures selected == old(selected) + (if FirstFile(files).Some? then [FirstFile(files).value] else [])
      ensures isDragOver == old(isDragOver) && notices == old(notices)
    {
      if files.Some? && |files.value| > 0 {
        selected := selected + [files.value[0]];
      }
    }

    /** `handleDragOver`: highlight, unless disabled. */
    method HandleDragOver()
      requires Valid()
      modifies this
      ensures Valid()
      ensures isDragOver == (!disabled || old(isDragOver))
      ensures selected == old(selected) && notices == old(notices)
    {
      if !disabled {
        isDragOver := true;
      }
    }

    /** `handleDragLeave`: the highlight always goes. */
    method HandleDragLeave()
      requires Valid()
      modifies this
      ensures Valid()
      ensures !isDragOver
      ensures selected == old(selected) && notices == old(notices)
    {
      isDragOver := false;
    }

    /**
     * `handleDrop`: the highlight goes; when enabled, the first dropped file
     * goes to the callback exactly when its type starts with "image/", and a
     * notice is raised otherwise. A drop without files selects nothing.
     */
    method HandleDrop(files: Option<seq<File>>)
      requires Valid()
      modifies this
      ensures Valid()
      ensures !isDragOver
      ensures disabled || FirstFile(files).None? ==> selected == old(selected) && notices == old(notices)
      ensures !disabled && FirstFile(files).Some? && IsImageType(FirstFile(files).value.mimeType) ==>
        selected == old(selected) + [FirstFile(files).value] && notices == old(notices)
      ensures !disabled && FirstFile(files).Some? && !IsImageType(FirstFile(files).value.mimeType) ==>
        selected == old(selected) && notices == old(notices) + [InvalidDropNotice]
    {
      isDragOver := false;
      if disabled {
        return;
      }
      if files.Some? && |files.value| > 0 {
        var file := files.value[0];
        if StartsWith(file.mimeType, "image/") {
          selected := selected + [file];
        } else {
          notices := notices + [InvalidDropNotice];
        }
      }
    }
  }
}
