module AttachmentTypes {
  datatype Kind = Image | Video | File | Voice | VideoNote

  datatype Status = Pending | Success | Error
}
