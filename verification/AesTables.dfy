/**
 The tables of aes-original.c and aes-ideetron.c as they are in the source: the substitution box is that
 of FIPS 197, the word tables are made from it, and both implementations use the same box.
*/
module AesTables {
  import opened Cmac
  import opened AesOriginal
  import opened AesRounds
  import AesIdeetron

  // ---------------------------------------------------------------------------------------------
  // What the tables ought to be

  /** The product of two bytes in the field of section 4.2 of FIPS 197. */
  function Times(a: bv8, b: bv8): bv8 {
    var a1 := Mul2(a);
    var a2 := Mul2(a1);
    var a3 := Mul2(a2);
    var a4 := Mul2(a3);
    var a5 := Mul2(a4);
    var a6 := Mul2(a5);
    var a7 := Mul2(a6);
    Part(a, b & 1) ^ Part(a1, b & 2) ^ Part(a2, b & 4) ^ Part(a3, b & 8)
    ^ Part(a4, b & 16) ^ Part(a5, b & 32) ^ Part(a6, b & 64) ^ Part(a7, b & 128)
  }

  function Part(a: bv8, bit: bv8): bv8 { if bit == 0 then 0 else a }

  /** The affine transformation of section 5.1.1 of FIPS 197. */
  function Affine(b: bv8): bv8 {
    b ^ ((b << 1) | (b >> 7)) ^ ((b << 2) | (b >> 6)) ^ ((b << 3) | (b >> 5)) ^ ((b << 4) | (b >> 4)) ^ 0x63
  }

  function InvAffine(b: bv8): bv8 { ((b << 1) | (b >> 7)) ^ ((b << 3) | (b >> 5)) ^ ((b << 6) | (b >> 2)) ^ 0x05 }

  /** y is the affine image of the inverse of x, or of zero if x is zero. */
  predicate Substitutes(x: bv8, y: bv8) {
    Affine(InvAffine(y)) == y && if x == 0 then InvAffine(y) == 0 else Times(x, InvAffine(y)) == 1
  }

  /** One entry of all tables, side by side: AES_S, S_Table, AES_E1, AES_E2, AES_E3 and AES_E4. */
  datatype Entry = Entry(s: bv8, sTable: bv8, e1: bv32, e2: bv32, e3: bv32, e4: bv32)

  predicate EntryOk(x: bv8, e: Entry) {
    var y, d := e.s, Mul2(e.s);
    var t := Xor8(d, y);
    && Substitutes(x, y) && e.sTable == y
    && e.e1 == Word4(d, y, y, t) && e.e2 == Word4(t, d, y, y) && e.e3 == Word4(y, t, d, y) && e.e4 == Word4(y, y, t, d)
  }

  // ---------------------------------------------------------------------------------------------
  // The tables, sixteen entries a row

  function Row0(c: bv8): Entry {
    match c
    case 0 => Entry(0x63, 0x63, 0xC66363A5, 0xA5C66363, 0x63A5C663, 0x6363A5C6)
    case 1 => Entry(0x7C, 0x7C, 0xF87C7C84, 0x84F87C7C, 0x7C84F87C, 0x7C7C84F8)
    case 2 => Entry(0x77, 0x77, 0xEE777799, 0x99EE7777, 0x7799EE77, 0x777799EE)
    case 3 => Entry(0x7B, 0x7B, 0xF67B7B8D, 0x8DF67B7B, 0x7B8DF67B, 0x7B7B8DF6)
    case 4 => Entry(0xF2, 0xF2, 0xFFF2F20D, 0x0DFFF2F2, 0xF20DFFF2, 0xF2F20DFF)
    case 5 => Entry(0x6B, 0x6B, 0xD66B6BBD, 0xBDD66B6B, 0x6BBDD66B, 0x6B6BBDD6)
    case 6 => Entry(0x6F, 0x6F, 0xDE6F6FB1, 0xB1DE6F6F, 0x6FB1DE6F, 0x6F6FB1DE)
    case 7 => Entry(0xC5, 0xC5, 0x91C5C554, 0x5491C5C5, 0xC55491C5, 0xC5C55491)
    case 8 => Entry(0x30, 0x30, 0x60303050, 0x50603030, 0x30506030, 0x30305060)
    case 9 => Entry(0x01, 0x01, 0x02010103, 0x03020101, 0x01030201, 0x01010302)
    case 10 => Entry(0x67, 0x67, 0xCE6767A9, 0xA9CE6767, 0x67A9CE67, 0x6767A9CE)
    case 11 => Entry(0x2B, 0x2B, 0x562B2B7D, 0x7D562B2B, 0x2B7D562B, 0x2B2B7D56)
    case 12 => Entry(0xFE, 0xFE, 0xE7FEFE19, 0x19E7FEFE, 0xFE19E7FE, 0xFEFE19E7)
    case 13 => Entry(0xD7, 0xD7, 0xB5D7D762, 0x62B5D7D7, 0xD762B5D7, 0xD7D762B5)
    case 14 => Entry(0xAB, 0xAB, 0x4DABABE6, 0xE64DABAB, 0xABE64DAB, 0xABABE64D)
    case _ => Entry(0x76, 0x76, 0xEC76769A, 0x9AEC7676, 0x769AEC76, 0x76769AEC)
  }

  function Row1(c: bv8): Entry {
    match c
    case 0 => Entry(0xCA, 0xCA, 0x8FCACA45, 0x458FCACA, 0xCA458FCA, 0xCACA458F)
    case 1 => Entry(0x82, 0x82, 0x1F82829D, 0x9D1F8282, 0x829D1F82, 0x82829D1F)
    case 2 => Entry(0xC9, 0xC9, 0x89C9C940, 0x4089C9C9, 0xC94089C9, 0xC9C94089)
    case 3 => Entry(0x7D, 0x7D, 0xFA7D7D87, 0x87FA7D7D, 0x7D87FA7D, 0x7D7D87FA)
    case 4 => Entry(0xFA, 0xFA, 0xEFFAFA15, 0x15EFFAFA, 0xFA15EFFA, 0xFAFA15EF)
    case 5 => Entry(0x59, 0x59, 0xB25959EB, 0xEBB25959, 0x59EBB259, 0x5959EBB2)
    case 6 => Entry(0x47, 0x47, 0x8E4747C9, 0xC98E4747, 0x47C98E47, 0x4747C98E)
    case 7 => Entry(0xF0, 0xF0, 0xFBF0F00B, 0x0BFBF0F0, 0xF00BFBF0, 0xF0F00BFB)
    case 8 => Entry(0xAD, 0xAD, 0x41ADADEC, 0xEC41ADAD, 0xADEC41AD, 0xADADEC41)
    case 9 => Entry(0xD4, 0xD4, 0xB3D4D467, 0x67B3D4D4, 0xD467B3D4, 0xD4D467B3)
    case 10 => Entry(0xA2, 0xA2, 0x5FA2A2FD, 0xFD5FA2A2, 0xA2FD5FA2, 0xA2A2FD5F)
    case 11 => Entry(0xAF, 0xAF, 0x45AFAFEA, 0xEA45AFAF, 0xAFEA45AF, 0xAFAFEA45)
    case 12 => Entry(0x9C, 0x9C, 0x239C9CBF, 0xBF239C9C, 0x9CBF239C, 0x9C9CBF23)
    case 13 => Entry(0xA4, 0xA4, 0x53A4A4F7, 0xF753A4A4, 0xA4F753A4, 0xA4A4F753)
    case 14 => Entry(0x72, 0x72, 0xE4727296, 0x96E47272, 0x7296E472, 0x727296E4)
    case _ => Entry(0xC0, 0xC0, 0x9BC0C05B, 0x5B9BC0C0, 0xC05B9BC0, 0xC0C05B9B)
  }

  function Row2(c: bv8): Entry {
    match c
    case 0 => Entry(0xB7, 0xB7, 0x75B7B7C2, 0xC275B7B7, 0xB7C275B7, 0xB7B7C275)
    case 1 => Entry(0xFD, 0xFD, 0xE1FDFD1C, 0x1CE1FDFD, 0xFD1CE1FD, 0xFDFD1CE1)
    case 2 => Entry(0x93, 0x93, 0x3D9393AE, 0xAE3D9393, 0x93AE3D93, 0x9393AE3D)
    case 3 => Entry(0x26, 0x26, 0x4C26266A, 0x6A4C2626, 0x266A4C26, 0x26266A4C)
    case 4 => Entry(0x36, 0x36, 0x6C36365A, 0x5A6C3636, 0x365A6C36, 0x36365A6C)
    case 5 => Entry(0x3F, 0x3F, 0x7E3F3F41, 0x417E3F3F, 0x3F417E3F, 0x3F3F417E)
    case 6 => Entry(0xF7, 0xF7, 0xF5F7F702, 0x02F5F7F7, 0xF702F5F7, 0xF7F702F5)
    case 7 => Entry(0xCC, 0xCC, 0x83CCCC4F, 0x4F83CCCC, 0xCC4F83CC, 0xCCCC4F83)
    case 8 => Entry(0x34, 0x34, 0x6834345C, 0x5C683434, 0x345C6834, 0x34345C68)
    case 9 => Entry(0xA5, 0xA5, 0x51A5A5F4, 0xF451A5A5, 0xA5F451A5, 0xA5A5F451)
    case 10 => Entry(0xE5, 0xE5, 0xD1E5E534, 0x34D1E5E5, 0xE534D1E5, 0xE5E534D1)
    case 11 => Entry(0xF1, 0xF1, 0xF9F1F108, 0x08F9F1F1, 0xF108F9F1, 0xF1F108F9)
    case 12 => Entry(0x71, 0x71, 0xE2717193, 0x93E27171, 0x7193E271, 0x717193E2)
    case 13 => Entry(0xD8, 0xD8, 0xABD8D873, 0x73ABD8D8, 0xD873ABD8, 0xD8D873AB)
    case 14 => Entry(0x31, 0x31, 0x62313153, 0x53623131, 0x31536231, 0x31315362)
    case _ => Entry(0x15, 0x15, 0x2A15153F, 0x3F2A1515, 0x153F2A15, 0x15153F2A)
  }

  function Row3(c: bv8): Entry {
    match c
    case 0 => Entry(0x04, 0x04, 0x0804040C, 0x0C080404, 0x040C0804, 0x04040C08)
    case 1 => Entry(0xC7, 0xC7, 0x95C7C752, 0x5295C7C7, 0xC75295C7, 0xC7C75295)
    case 2 => Entry(0x23, 0x23, 0x46232365, 0x65462323, 0x23654623, 0x23236546)
    case 3 => Entry(0xC3, 0xC3, 0x9DC3C35E, 0x5E9DC3C3, 0xC35E9DC3, 0xC3C35E9D)
    case 4 => Entry(0x18, 0x18, 0x30181828, 0x28301818, 0x18283018, 0x18182830)
    case 5 => Entry(0x96, 0x96, 0x379696A1, 0xA1379696, 0x96A13796, 0x9696A137)
    case 6 => Entry(0x05, 0x05, 0x0A05050F, 0x0F0A0505, 0x050F0A05, 0x05050F0A)
    case 7 => Entry(0x9A, 0x9A, 0x2F9A9AB5, 0xB52F9A9A, 0x9AB52F9A, 0x9A9AB52F)
    case 8 => Entry(0x07, 0x07, 0x0E070709, 0x090E0707, 0x07090E07, 0x0707090E)
    case 9 => Entry(0x12, 0x12, 0x24121236, 0x36241212, 0x12362412, 0x12123624)
    case 10 => Entry(0x80, 0x80, 0x1B80809B, 0x9B1B8080, 0x809B1B80, 0x80809B1B)
    case 11 => Entry(0xE2, 0xE2, 0xDFE2E23D, 0x3DDFE2E2, 0xE23DDFE2, 0xE2E23DDF)
    case 12 => Entry(0xEB, 0xEB, 0xCDEBEB26, 0x26CDEBEB, 0xEB26CDEB, 0xEBEB26CD)
    case 13 => Entry(0x27, 0x27, 0x4E272769, 0x694E2727, 0x27694E27, 0x2727694E)
    case 14 => Entry(0xB2, 0xB2, 0x7FB2B2CD, 0xCD7FB2B2, 0xB2CD7FB2, 0xB2B2CD7F)
    case _ => Entry(0x75, 0x75, 0xEA75759F, 0x9FEA7575, 0x759FEA75, 0x75759FEA)
  }

  function Row4(c: bv8): Entry {
    match c
    case 0 => Entry(0x09, 0x09, 0x1209091B, 0x1B120909, 0x091B1209, 0x09091B12)
    case 1 => Entry(0x83, 0x83, 0x1D83839E, 0x9E1D8383, 0x839E1D83, 0x83839E1D)
    case 2 => Entry(0x2C, 0x2C, 0x582C2C74, 0x74582C2C, 0x2C74582C, 0x2C2C7458)
    case 3 => Entry(0x1A, 0x1A, 0x341A1A2E, 0x2E341A1A, 0x1A2E341A, 0x1A1A2E34)
    case 4 => Entry(0x1B, 0x1B, 0x361B1B2D, 0x2D361B1B, 0x1B2D361B, 0x1B1B2D36)
    case 5 => Entry(0x6E, 0x6E, 0xDC6E6EB2, 0xB2DC6E6E, 0x6EB2DC6E, 0x6E6EB2DC)
    case 6 => Entry(0x5A, 0x5A, 0xB45A5AEE, 0xEEB45A5A, 0x5AEEB45A, 0x5A5AEEB4)
    case 7 => Entry(0xA0, 0xA0, 0x5BA0A0FB, 0xFB5BA0A0, 0xA0FB5BA0, 0xA0A0FB5B)
    case 8 => Entry(0x52, 0x52, 0xA45252F6, 0xF6A45252, 0x52F6A452, 0x5252F6A4)
    case 9 => Entry(0x3B, 0x3B, 0x763B3B4D, 0x4D763B3B, 0x3B4D763B, 0x3B3B4D76)
    case 10 => Entry(0xD6, 0xD6, 0xB7D6D661, 0x61B7D6D6, 0xD661B7D6, 0xD6D661B7)
    case 11 => Entry(0xB3, 0xB3, 0x7DB3B3CE, 0xCE7DB3B3, 0xB3CE7DB3, 0xB3B3CE7D)
    case 12 => Entry(0x29, 0x29, 0x5229297B, 0x7B522929, 0x297B5229, 0x29297B52)
    case 13 => Entry(0xE3, 0xE3, 0xDDE3E33E, 0x3EDDE3E3, 0xE33EDDE3, 0xE3E33EDD)
    case 14 => Entry(0x2F, 0x2F, 0x5E2F2F71, 0x715E2F2F, 0x2F715E2F, 0x2F2F715E)
    case _ => Entry(0x84, 0x84, 0x13848497, 0x97138484, 0x84971384, 0x84849713)
  }

  function Row5(c: bv8): Entry {
    match c
    case 0 => Entry(0x53, 0x53, 0xA65353F5, 0xF5A65353, 0x53F5A653, 0x5353F5A6)
    case 1 => Entry(0xD1, 0xD1, 0xB9D1D168, 0x68B9D1D1, 0xD168B9D1, 0xD1D168B9)
    case 2 => Entry(0x00, 0x00, 0x00000000, 0x00000000, 0x00000000, 0x00000000)
    case 3 => Entry(0xED, 0xED, 0xC1EDED2C, 0x2CC1EDED, 0xED2CC1ED, 0xEDED2CC1)
    case 4 => Entry(0x20, 0x20, 0x40202060, 0x60402020, 0x20604020, 0x20206040)
    case 5 => Entry(0xFC, 0xFC, 0xE3FCFC1F, 0x1FE3FCFC, 0xFC1FE3FC, 0xFCFC1FE3)
    case 6 => Entry(0xB1, 0xB1, 0x79B1B1C8, 0xC879B1B1, 0xB1C879B1, 0xB1B1C879)
    case 7 => Entry(0x5B, 0x5B, 0xB65B5BED, 0xEDB65B5B, 0x5BEDB65B, 0x5B5BEDB6)
    case 8 => Entry(0x6A, 0x6A, 0xD46A6ABE, 0xBED46A6A, 0x6ABED46A, 0x6A6ABED4)
    case 9 => Entry(0xCB, 0xCB, 0x8DCBCB46, 0x468DCBCB, 0xCB468DCB, 0xCBCB468D)
    case 10 => Entry(0xBE, 0xBE, 0x67BEBED9, 0xD967BEBE, 0xBED967BE, 0xBEBED967)
    case 11 => Entry(0x39, 0x39, 0x7239394B, 0x4B723939, 0x394B7239, 0x39394B72)
    case 12 => Entry(0x4A, 0x4A, 0x944A4ADE, 0xDE944A4A, 0x4ADE944A, 0x4A4ADE94)
    case 13 => Entry(0x4C, 0x4C, 0x984C4CD4, 0xD4984C4C, 0x4CD4984C, 0x4C4CD498)
    case 14 => Entry(0x58, 0x58, 0xB05858E8, 0xE8B05858, 0x58E8B058, 0x5858E8B0)
    case _ => Entry(0xCF, 0xCF, 0x85CFCF4A, 0x4A85CFCF, 0xCF4A85CF, 0xCFCF4A85)
  }

  function Row6(c: bv8): Entry {
    match c
    case 0 => Entry(0xD0, 0xD0, 0xBBD0D06B, 0x6BBBD0D0, 0xD06BBBD0, 0xD0D06BBB)
    case 1 => Entry(0xEF, 0xEF, 0xC5EFEF2A, 0x2AC5EFEF, 0xEF2AC5EF, 0xEFEF2AC5)
    case 2 => Entry(0xAA, 0xAA, 0x4FAAAAE5, 0xE54FAAAA, 0xAAE54FAA, 0xAAAAE54F)
    case 3 => Entry(0xFB, 0xFB, 0xEDFBFB16, 0x16EDFBFB, 0xFB16EDFB, 0xFBFB16ED)
    case 4 => Entry(0x43, 0x43, 0x864343C5, 0xC5864343, 0x43C58643, 0x4343C586)
    case 5 => Entry(0x4D, 0x4D, 0x9A4D4DD7, 0xD79A4D4D, 0x4DD79A4D, 0x4D4DD79A)
    case 6 => Entry(0x33, 0x33, 0x66333355, 0x55663333, 0x33556633, 0x33335566)
    case 7 => Entry(0x85, 0x85, 0x11858594, 0x94118585, 0x85941185, 0x85859411)
    case 8 => Entry(0x45, 0x45, 0x8A4545CF, 0xCF8A4545, 0x45CF8A45, 0x4545CF8A)
    case 9 => Entry(0xF9, 0xF9, 0xE9F9F910, 0x10E9F9F9, 0xF910E9F9, 0xF9F910E9)
    case 10 => Entry(0x02, 0x02, 0x04020206, 0x06040202, 0x02060402, 0x02020604)
    case 11 => Entry(0x7F, 0x7F, 0xFE7F7F81, 0x81FE7F7F, 0x7F81FE7F, 0x7F7F81FE)
    case 12 => Entry(0x50, 0x50, 0xA05050F0, 0xF0A05050, 0x50F0A050, 0x5050F0A0)
    case 13 => Entry(0x3C, 0x3C, 0x783C3C44, 0x44783C3C, 0x3C44783C, 0x3C3C4478)
    case 14 => Entry(0x9F, 0x9F, 0x259F9FBA, 0xBA259F9F, 0x9FBA259F, 0x9F9FBA25)
    case _ => Entry(0xA8, 0xA8, 0x4BA8A8E3, 0xE34BA8A8, 0xA8E34BA8, 0xA8A8E34B)
  }

  function Row7(c: bv8): Entry {
    match c
    case 0 => Entry(0x51, 0x51, 0xA25151F3, 0xF3A25151, 0x51F3A251, 0x5151F3A2)
    case 1 => Entry(0xA3, 0xA3, 0x5DA3A3FE, 0xFE5DA3A3, 0xA3FE5DA3, 0xA3A3FE5D)
    case 2 => Entry(0x40, 0x40, 0x804040C0, 0xC0804040, 0x40C08040, 0x4040C080)
    case 3 => Entry(0x8F, 0x8F, 0x058F8F8A, 0x8A058F8F, 0x8F8A058F, 0x8F8F8A05)
    case 4 => Entry(0x92, 0x92, 0x3F9292AD, 0xAD3F9292, 0x92AD3F92, 0x9292AD3F)
    case 5 => Entry(0x9D, 0x9D, 0x219D9DBC, 0xBC219D9D, 0x9DBC219D, 0x9D9DBC21)
    case 6 => Entry(0x38, 0x38, 0x70383848, 0x48703838, 0x38487038, 0x38384870)
    case 7 => Entry(0xF5, 0xF5, 0xF1F5F504, 0x04F1F5F5, 0xF504F1F5, 0xF5F504F1)
    case 8 => Entry(0xBC, 0xBC, 0x63BCBCDF, 0xDF63BCBC, 0xBCDF63BC, 0xBCBCDF63)
    case 9 => Entry(0xB6, 0xB6, 0x77B6B6C1, 0xC177B6B6, 0xB6C177B6, 0xB6B6C177)
    case 10 => Entry(0xDA, 0xDA, 0xAFDADA75, 0x75AFDADA, 0xDA75AFDA, 0xDADA75AF)
    case 11 => Entry(0x21, 0x21, 0x42212163, 0x63422121, 0x21634221, 0x21216342)
    case 12 => Entry(0x10, 0x10, 0x20101030, 0x30201010, 0x10302010, 0x10103020)
    case 13 => Entry(0xFF, 0xFF, 0xE5FFFF1A, 0x1AE5FFFF, 0xFF1AE5FF, 0xFFFF1AE5)
    case 14 => Entry(0xF3, 0xF3, 0xFDF3F30E, 0x0EFDF3F3, 0xF30EFDF3, 0xF3F30EFD)
    case _ => Entry(0xD2, 0xD2, 0xBFD2D26D, 0x6DBFD2D2, 0xD26DBFD2, 0xD2D26DBF)
  }

  function Row8(c: bv8): Entry {
    match c
    case 0 => Entry(0xCD, 0xCD, 0x81CDCD4C, 0x4C81CDCD, 0xCD4C81CD, 0xCDCD4C81)
    case 1 => Entry(0x0C, 0x0C, 0x180C0C14, 0x14180C0C, 0x0C14180C, 0x0C0C1418)
    case 2 => Entry(0x13, 0x13, 0x26131335, 0x35261313, 0x13352613, 0x13133526)
    case 3 => Entry(0xEC, 0xEC, 0xC3ECEC2F, 0x2FC3ECEC, 0xEC2FC3EC, 0xECEC2FC3)
    case 4 => Entry(0x5F, 0x5F, 0xBE5F5FE1, 0xE1BE5F5F, 0x5FE1BE5F, 0x5F5FE1BE)
    case 5 => Entry(0x97, 0x97, 0x359797A2, 0xA2359797, 0x97A23597, 0x9797A235)
    case 6 => Entry(0x44, 0x44, 0x884444CC, 0xCC884444, 0x44CC8844, 0x4444CC88)
    case 7 => Entry(0x17, 0x17, 0x2E171739, 0x392E1717, 0x17392E17, 0x1717392E)
    case 8 => Entry(0xC4, 0xC4, 0x93C4C457, 0x5793C4C4, 0xC45793C4, 0xC4C45793)
    case 9 => Entry(0xA7, 0xA7, 0x55A7A7F2, 0xF255A7A7, 0xA7F255A7, 0xA7A7F255)
    case 10 => Entry(0x7E, 0x7E, 0xFC7E7E82, 0x82FC7E7E, 0x7E82FC7E, 0x7E7E82FC)
    case 11 => Entry(0x3D, 0x3D, 0x7A3D3D47, 0x477A3D3D, 0x3D477A3D, 0x3D3D477A)
    case 12 => Entry(0x64, 0x64, 0xC86464AC, 0xACC86464, 0x64ACC864, 0x6464ACC8)
    case 13 => Entry(0x5D, 0x5D, 0xBA5D5DE7, 0xE7BA5D5D, 0x5DE7BA5D, 0x5D5DE7BA)
    case 14 => Entry(0x19, 0x19, 0x3219192B, 0x2B321919, 0x192B3219, 0x19192B32)
    case _ => Entry(0x73, 0x73, 0xE6737395, 0x95E67373, 0x7395E673, 0x737395E6)
  }

  function Row9(c: bv8): Entry {
    match c
    case 0 => Entry(0x60, 0x60, 0xC06060A0, 0xA0C06060, 0x60A0C060, 0x6060A0C0)
    case 1 => Entry(0x81, 0x81, 0x19818198, 0x98198181, 0x81981981, 0x81819819)
    case 2 => Entry(0x4F, 0x4F, 0x9E4F4FD1, 0xD19E4F4F, 0x4FD19E4F, 0x4F4FD19E)
    case 3 => Entry(0xDC, 0xDC, 0xA3DCDC7F, 0x7FA3DCDC, 0xDC7FA3DC, 0xDCDC7FA3)
    case 4 => Entry(0x22, 0x22, 0x44222266, 0x66442222, 0x22664422, 0x22226644)
    case 5 => Entry(0x2A, 0x2A, 0x542A2A7E, 0x7E542A2A, 0x2A7E542A, 0x2A2A7E54)
    case 6 => Entry(0x90, 0x90, 0x3B9090AB, 0xAB3B9090, 0x90AB3B90, 0x9090AB3B)
    case 7 => Entry(0x88, 0x88, 0x0B888883, 0x830B8888, 0x88830B88, 0x8888830B)
    case 8 => Entry(0x46, 0x46, 0x8C4646CA, 0xCA8C4646, 0x46CA8C46, 0x4646CA8C)
    case 9 => Entry(0xEE, 0xEE, 0xC7EEEE29, 0x29C7EEEE, 0xEE29C7EE, 0xEEEE29C7)
    case 10 => Entry(0xB8, 0xB8, 0x6BB8B8D3, 0xD36BB8B8, 0xB8D36BB8, 0xB8B8D36B)
    case 11 => Entry(0x14, 0x14, 0x2814143C, 0x3C281414, 0x143C2814, 0x14143C28)
    case 12 => Entry(0xDE, 0xDE, 0xA7DEDE79, 0x79A7DEDE, 0xDE79A7DE, 0xDEDE79A7)
    case 13 => Entry(0x5E, 0x5E, 0xBC5E5EE2, 0xE2BC5E5E, 0x5EE2BC5E, 0x5E5EE2BC)
    case 14 => Entry(0x0B, 0x0B, 0x160B0B1D, 0x1D160B0B, 0x0B1D160B, 0x0B0B1D16)
    case _ => Entry(0xDB, 0xDB, 0xADDBDB76, 0x76ADDBDB, 0xDB76ADDB, 0xDBDB76AD)
  }

  function RowA(c: bv8): Entry {
    match c
    case 0 => Entry(0xE0, 0xE0, 0xDBE0E03B, 0x3BDBE0E0, 0xE03BDBE0, 0xE0E03BDB)
    case 1 => Entry(0x32, 0x32, 0x64323256, 0x56643232, 0x32566432, 0x32325664)
    case 2 => Entry(0x3A, 0x3A, 0x743A3A4E, 0x4E743A3A, 0x3A4E743A, 0x3A3A4E74)
    case 3 => Entry(0x0A, 0x0A, 0x140A0A1E, 0x1E140A0A, 0x0A1E140A, 0x0A0A1E14)
    case 4 => Entry(0x49, 0x49, 0x924949DB, 0xDB924949, 0x49DB9249, 0x4949DB92)
    case 5 => Entry(0x06, 0x06, 0x0C06060A, 0x0A0C0606, 0x060A0C06, 0x06060A0C)
    case 6 => Entry(0x24, 0x24, 0x4824246C, 0x6C482424, 0x246C4824, 0x24246C48)
    case 7 => Entry(0x5C, 0x5C, 0xB85C5CE4, 0xE4B85C5C, 0x5CE4B85C, 0x5C5CE4B8)
    case 8 => Entry(0xC2, 0xC2, 0x9FC2C25D, 0x5D9FC2C2, 0xC25D9FC2, 0xC2C25D9F)
    case 9 => Entry(0xD3, 0xD3, 0xBDD3D36E, 0x6EBDD3D3, 0xD36EBDD3, 0xD3D36EBD)
    case 10 => Entry(0xAC, 0xAC, 0x43ACACEF, 0xEF43ACAC, 0xACEF43AC, 0xACACEF43)
    case 11 => Entry(0x62, 0x62, 0xC46262A6, 0xA6C46262, 0x62A6C462, 0x6262A6C4)
    case 12 => Entry(0x91, 0x91, 0x399191A8, 0xA8399191, 0x91A83991, 0x9191A839)
    case 13 => Entry(0x95, 0x95, 0x319595A4, 0xA4319595, 0x95A43195, 0x9595A431)
    case 14 => Entry(0xE4, 0xE4, 0xD3E4E437, 0x37D3E4E4, 0xE437D3E4, 0xE4E437D3)
    case _ => Entry(0x79, 0x79, 0xF279798B, 0x8BF27979, 0x798BF279, 0x79798BF2)
  }

  function RowB(c: bv8): Entry {
    match c
    case 0 => Entry(0xE7, 0xE7, 0xD5E7E732, 0x32D5E7E7, 0xE732D5E7, 0xE7E732D5)
    case 1 => Entry(0xC8, 0xC8, 0x8BC8C843, 0x438BC8C8, 0xC8438BC8, 0xC8C8438B)
    case 2 => Entry(0x37, 0x37, 0x6E373759, 0x596E3737, 0x37596E37, 0x3737596E)
    case 3 => Entry(0x6D, 0x6D, 0xDA6D6DB7, 0xB7DA6D6D, 0x6DB7DA6D, 0x6D6DB7DA)
    case 4 => Entry(0x8D, 0x8D, 0x018D8D8C, 0x8C018D8D, 0x8D8C018D, 0x8D8D8C01)
    case 5 => Entry(0xD5, 0xD5, 0xB1D5D564, 0x64B1D5D5, 0xD564B1D5, 0xD5D564B1)
    case 6 => Entry(0x4E, 0x4E, 0x9C4E4ED2, 0xD29C4E4E, 0x4ED29C4E, 0x4E4ED29C)
    case 7 => Entry(0xA9, 0xA9, 0x49A9A9E0, 0xE049A9A9, 0xA9E049A9, 0xA9A9E049)
    case 8 => Entry(0x6C, 0x6C, 0xD86C6CB4, 0xB4D86C6C, 0x6CB4D86C, 0x6C6CB4D8)
    case 9 => Entry(0x56, 0x56, 0xAC5656FA, 0xFAAC5656, 0x56FAAC56, 0x5656FAAC)
    case 10 => Entry(0xF4, 0xF4, 0xF3F4F407, 0x07F3F4F4, 0xF407F3F4, 0xF4F407F3)
    case 11 => Entry(0xEA, 0xEA, 0xCFEAEA25, 0x25CFEAEA, 0xEA25CFEA, 0xEAEA25CF)
    case 12 => Entry(0x65, 0x65, 0xCA6565AF, 0xAFCA6565, 0x65AFCA65, 0x6565AFCA)
    case 13 => Entry(0x7A, 0x7A, 0xF47A7A8E, 0x8EF47A7A, 0x7A8EF47A, 0x7A7A8EF4)
    case 14 => Entry(0xAE, 0xAE, 0x47AEAEE9, 0xE947AEAE, 0xAEE947AE, 0xAEAEE947)
    case _ => Entry(0x08, 0x08, 0x10080818, 0x18100808, 0x08181008, 0x08081810)
  }

  function RowC(c: bv8): Entry {
    match c
    case 0 => Entry(0xBA, 0xBA, 0x6FBABAD5, 0xD56FBABA, 0xBAD56FBA, 0xBABAD56F)
    case 1 => Entry(0x78, 0x78, 0xF0787888, 0x88F07878, 0x7888F078, 0x787888F0)
    case 2 => Entry(0x25, 0x25, 0x4A25256F, 0x6F4A2525, 0x256F4A25, 0x25256F4A)
    case 3 => Entry(0x2E, 0x2E, 0x5C2E2E72, 0x725C2E2E, 0x2E725C2E, 0x2E2E725C)
    case 4 => Entry(0x1C, 0x1C, 0x381C1C24, 0x24381C1C, 0x1C24381C, 0x1C1C2438)
    case 5 => Entry(0xA6, 0xA6, 0x57A6A6F1, 0xF157A6A6, 0xA6F157A6, 0xA6A6F157)
    case 6 => Entry(0xB4, 0xB4, 0x73B4B4C7, 0xC773B4B4, 0xB4C773B4, 0xB4B4C773)
    case 7 => Entry(0xC6, 0xC6, 0x97C6C651, 0x5197C6C6, 0xC65197C6, 0xC6C65197)
    case 8 => Entry(0xE8, 0xE8, 0xCBE8E823, 0x23CBE8E8, 0xE823CBE8, 0xE8E823CB)
    case 9 => Entry(0xDD, 0xDD, 0xA1DDDD7C, 0x7CA1DDDD, 0xDD7CA1DD, 0xDDDD7CA1)
    case 10 => Entry(0x74, 0x74, 0xE874749C, 0x9CE87474, 0x749CE874, 0x74749CE8)
    case 11 => Entry(0x1F, 0x1F, 0x3E1F1F21, 0x213E1F1F, 0x1F213E1F, 0x1F1F213E)
    case 12 => Entry(0x4B, 0x4B, 0x964B4BDD, 0xDD964B4B, 0x4BDD964B, 0x4B4BDD96)
    case 13 => Entry(0xBD, 0xBD, 0x61BDBDDC, 0xDC61BDBD, 0xBDDC61BD, 0xBDBDDC61)
    case 14 => Entry(0x8B, 0x8B, 0x0D8B8B86, 0x860D8B8B, 0x8B860D8B, 0x8B8B860D)
    case _ => Entry(0x8A, 0x8A, 0x0F8A8A85, 0x850F8A8A, 0x8A850F8A, 0x8A8A850F)
  }

  function RowD(c: bv8): Entry {
    match c
    case 0 => Entry(0x70, 0x70, 0xE0707090, 0x90E07070, 0x7090E070, 0x707090E0)
    case 1 => Entry(0x3E, 0x3E, 0x7C3E3E42, 0x427C3E3E, 0x3E427C3E, 0x3E3E427C)
    case 2 => Entry(0xB5, 0xB5, 0x71B5B5C4, 0xC471B5B5, 0xB5C471B5, 0xB5B5C471)
    case 3 => Entry(0x66, 0x66, 0xCC6666AA, 0xAACC6666, 0x66AACC66, 0x6666AACC)
    case 4 => Entry(0x48, 0x48, 0x904848D8, 0xD8904848, 0x48D89048, 0x4848D890)
    case 5 => Entry(0x03, 0x03, 0x06030305, 0x05060303, 0x03050603, 0x03030506)
    case 6 => Entry(0xF6, 0xF6, 0xF7F6F601, 0x01F7F6F6, 0xF601F7F6, 0xF6F601F7)
    case 7 => Entry(0x0E, 0x0E, 0x1C0E0E12, 0x121C0E0E, 0x0E121C0E, 0x0E0E121C)
    case 8 => Entry(0x61, 0x61, 0xC26161A3, 0xA3C26161, 0x61A3C261, 0x6161A3C2)
    case 9 => Entry(0x35, 0x35, 0x6A35355F, 0x5F6A3535, 0x355F6A35, 0x35355F6A)
    case 10 => Entry(0x57, 0x57, 0xAE5757F9, 0xF9AE5757, 0x57F9AE57, 0x5757F9AE)
    case 11 => Entry(0xB9, 0xB9, 0x69B9B9D0, 0xD069B9B9, 0xB9D069B9, 0xB9B9D069)
    case 12 => Entry(0x86, 0x86, 0x17868691, 0x91178686, 0x86911786, 0x86869117)
    case 13 => Entry(0xC1, 0xC1, 0x99C1C158, 0x5899C1C1, 0xC15899C1, 0xC1C15899)
    case 14 => Entry(0x1D, 0x1D, 0x3A1D1D27, 0x273A1D1D, 0x1D273A1D, 0x1D1D273A)
    case _ => Entry(0x9E, 0x9E, 0x279E9EB9, 0xB9279E9E, 0x9EB9279E, 0x9E9EB927)
  }

  function RowE(c: bv8): Entry {
    match c
    case 0 => Entry(0xE1, 0xE1, 0xD9E1E138, 0x38D9E1E1, 0xE138D9E1, 0xE1E138D9)
    case 1 => Entry(0xF8, 0xF8, 0xEBF8F813, 0x13EBF8F8, 0xF813EBF8, 0xF8F813EB)
    case 2 => Entry(0x98, 0x98, 0x2B9898B3, 0xB32B9898, 0x98B32B98, 0x9898B32B)
    case 3 => Entry(0x11, 0x11, 0x22111133, 0x33221111, 0x11332211, 0x11113322)
    case 4 => Entry(0x69, 0x69, 0xD26969BB, 0xBBD26969, 0x69BBD269, 0x6969BBD2)
    case 5 => Entry(0xD9, 0xD9, 0xA9D9D970, 0x70A9D9D9, 0xD970A9D9, 0xD9D970A9)
    case 6 => Entry(0x8E, 0x8E, 0x078E8E89, 0x89078E8E, 0x8E89078E, 0x8E8E8907)
    case 7 => Entry(0x94, 0x94, 0x339494A7, 0xA7339494, 0x94A73394, 0x9494A733)
    case 8 => Entry(0x9B, 0x9B, 0x2D9B9BB6, 0xB62D9B9B, 0x9BB62D9B, 0x9B9BB62D)
    case 9 => Entry(0x1E, 0x1E, 0x3C1E1E22, 0x223C1E1E, 0x1E223C1E, 0x1E1E223C)
    case 10 => Entry(0x87, 0x87, 0x15878792, 0x92158787, 0x87921587, 0x87879215)
    case 11 => Entry(0xE9, 0xE9, 0xC9E9E920, 0x20C9E9E9, 0xE920C9E9, 0xE9E920C9)
    case 12 => Entry(0xCE, 0xCE, 0x87CECE49, 0x4987CECE, 0xCE4987CE, 0xCECE4987)
    case 13 => Entry(0x55, 0x55, 0xAA5555FF, 0xFFAA5555, 0x55FFAA55, 0x5555FFAA)
    case 14 => Entry(0x28, 0x28, 0x50282878, 0x78502828, 0x28785028, 0x28287850)
    case _ => Entry(0xDF, 0xDF, 0xA5DFDF7A, 0x7AA5DFDF, 0xDF7AA5DF, 0xDFDF7AA5)
  }

  function RowF(c: bv8): Entry {
    match c
    case 0 => Entry(0x8C, 0x8C, 0x038C8C8F, 0x8F038C8C, 0x8C8F038C, 0x8C8C8F03)
    case 1 => Entry(0xA1, 0xA1, 0x59A1A1F8, 0xF859A1A1, 0xA1F859A1, 0xA1A1F859)
    case 2 => Entry(0x89, 0x89, 0x09898980, 0x80098989, 0x89800989, 0x89898009)
    case 3 => Entry(0x0D, 0x0D, 0x1A0D0D17, 0x171A0D0D, 0x0D171A0D, 0x0D0D171A)
    case 4 => Entry(0xBF, 0xBF, 0x65BFBFDA, 0xDA65BFBF, 0xBFDA65BF, 0xBFBFDA65)
    case 5 => Entry(0xE6, 0xE6, 0xD7E6E631, 0x31D7E6E6, 0xE631D7E6, 0xE6E631D7)
    case 6 => Entry(0x42, 0x42, 0x844242C6, 0xC6844242, 0x42C68442, 0x4242C684)
    case 7 => Entry(0x68, 0x68, 0xD06868B8, 0xB8D06868, 0x68B8D068, 0x6868B8D0)
    case 8 => Entry(0x41, 0x41, 0x824141C3, 0xC3824141, 0x41C38241, 0x4141C382)
    case 9 => Entry(0x99, 0x99, 0x299999B0, 0xB0299999, 0x99B02999, 0x9999B029)
    case 10 => Entry(0x2D, 0x2D, 0x5A2D2D77, 0x775A2D2D, 0x2D775A2D, 0x2D2D775A)
    case 11 => Entry(0x0F, 0x0F, 0x1E0F0F11, 0x111E0F0F, 0x0F111E0F, 0x0F0F111E)
    case 12 => Entry(0xB0, 0xB0, 0x7BB0B0CB, 0xCB7BB0B0, 0xB0CB7BB0, 0xB0B0CB7B)
    case 13 => Entry(0x54, 0x54, 0xA85454FC, 0xFCA85454, 0x54FCA854, 0x5454FCA8)
    case 14 => Entry(0xBB, 0xBB, 0x6DBBBBD6, 0xD66DBBBB, 0xBBD66DBB, 0xBBBBD66D)
    case _ => Entry(0x16, 0x16, 0x2C16163A, 0x3A2C1616, 0x163A2C16, 0x16163A2C)
  }

  /** Entry x of the tables. */
  function EntryAt(x: bv8): Entry {
    var c := x & 0xF;
    match x >> 4
    case 0 => Row0(c)
    case 1 => Row1(c)
    case 2 => Row2(c)
    case 3 => Row3(c)
    case 4 => Row4(c)
    case 5 => Row5(c)
    case 6 => Row6(c)
    case 7 => Row7(c)
    case 8 => Row8(c)
    case 9 => Row9(c)
    case 10 => RowA(c)
    case 11 => RowB(c)
    case 12 => RowC(c)
    case 13 => RowD(c)
    case 14 => RowE(c)
    case _ => RowF(c)
  }

  lemma Row0Ok(c: bv8)
    requires c < 16
    ensures EntryOk(0x00 | c, Row0(c))
  {
    match c
    case 0 => case 1 => case 2 => case 3 => case 4 => case 5 => case 6 => case 7 =>
    case 8 => case 9 => case 10 => case 11 => case 12 => case 13 => case 14 => case _ =>
  }

  lemma Row1Ok(c: bv8)
    requires c < 16
    ensures EntryOk(0x10 | c, Row1(c))
  {
    match c
    case 0 => case 1 => case 2 => case 3 => case 4 => case 5 => case 6 => case 7 =>
    case 8 => case 9 => case 10 => case 11 => case 12 => case 13 => case 14 => case _ =>
  }

  lemma Row2Ok(c: bv8)
    requires c < 16
    ensures EntryOk(0x20 | c, Row2(c))
  {
    match c
    case 0 => case 1 => case 2 => case 3 => case 4 => case 5 => case 6 => case 7 =>
    case 8 => case 9 => case 10 => case 11 => case 12 => case 13 => case 14 => case _ =>
  }

  lemma Row3Ok(c: bv8)
    requires c < 16
    ensures EntryOk(0x30 | c, Row3(c))
  {
    match c
    case 0 => case 1 => case 2 => case 3 => case 4 => case 5 => case 6 => case 7 =>
    case 8 => case 9 => case 10 => case 11 => case 12 => case 13 => case 14 => case _ =>
  }

  lemma Row4Ok(c: bv8)
    requires c < 16
    ensures EntryOk(0x40 | c, Row4(c))
  {
    match c
    case 0 => case 1 => case 2 => case 3 => case 4 => case 5 => case 6 => case 7 =>
    case 8 => case 9 => case 10 => case 11 => case 12 => case 13 => case 14 => case _ =>
  }

  lemma Row5Ok(c: bv8)
    requires c < 16
    ensures EntryOk(0x50 | c, Row5(c))
  {
    match c
    case 0 => case 1 => case 2 => case 3 => case 4 => case 5 => case 6 => case 7 =>
    case 8 => case 9 => case 10 => case 11 => case 12 => case 13 => case 14 => case _ =>
  }

  lemma Row6Ok(c: bv8)
    requires c < 16
    ensures EntryOk(0x60 | c, Row6(c))
  {
    match c
    case 0 => case 1 => case 2 => case 3 => case 4 => case 5 => case 6 => case 7 =>
    case 8 => case 9 => case 10 => case 11 => case 12 => case 13 => case 14 => case _ =>
  }

  lemma Row7Ok(c: bv8)
    requires c < 16
    ensures EntryOk(0x70 | c, Row7(c))
  {
    match c
    case 0 => case 1 => case 2 => case 3 => case 4 => case 5 => case 6 => case 7 =>
    case 8 => case 9 => case 10 => case 11 => case 12 => case 13 => case 14 => case _ =>
  }

  lemma Row8Ok(c: bv8)
    requires c < 16
    ensures EntryOk(0x80 | c, Row8(c))
  {
    match c
    case 0 => case 1 => case 2 => case 3 => case 4 => case 5 => case 6 => case 7 =>
    case 8 => case 9 => case 10 => case 11 => case 12 => case 13 => case 14 => case _ =>
  }

  lemma Row9Ok(c: bv8)
    requires c < 16
    ensures EntryOk(0x90 | c, Row9(c))
  {
    match c
    case 0 => case 1 => case 2 => case 3 => case 4 => case 5 => case 6 => case 7 =>
    case 8 => case 9 => case 10 => case 11 => case 12 => case 13 => case 14 => case _ =>
  }

  lemma RowAOk(c: bv8)
    requires c < 16
    ensures EntryOk(0xA0 | c, RowA(c))
  {
    match c
    case 0 => case 1 => case 2 => case 3 => case 4 => case 5 => case 6 => case 7 =>
    case 8 => case 9 => case 10 => case 11 => case 12 => case 13 => case 14 => case _ =>
  }

  lemma RowBOk(c: bv8)
    requires c < 16
    ensures EntryOk(0xB0 | c, RowB(c))
  {
    match c
    case 0 => case 1 => case 2 => case 3 => case 4 => case 5 => case 6 => case 7 =>
    case 8 => case 9 => case 10 => case 11 => case 12 => case 13 => case 14 => case _ =>
  }

  lemma RowCOk(c: bv8)
    requires c < 16
    ensures EntryOk(0xC0 | c, RowC(c))
  {
    match c
    case 0 => case 1 => case 2 => case 3 => case 4 => case 5 => case 6 => case 7 =>
    case 8 => case 9 => case 10 => case 11 => case 12 => case 13 => case 14 => case _ =>
  }

  lemma RowDOk(c: bv8)
    requires c < 16
    ensures EntryOk(0xD0 | c, RowD(c))
  {
    match c
    case 0 => case 1 => case 2 => case 3 => case 4 => case 5 => case 6 => case 7 =>
    case 8 => case 9 => case 10 => case 11 => case 12 => case 13 => case 14 => case _ =>
  }

  lemma RowEOk(c: bv8)
    requires c < 16
    ensures EntryOk(0xE0 | c, RowE(c))
  {
    match c
    case 0 => case 1 => case 2 => case 3 => case 4 => case 5 => case 6 => case 7 =>
    case 8 => case 9 => case 10 => case 11 => case 12 => case 13 => case 14 => case _ =>
  }

  lemma RowFOk(c: bv8)
    requires c < 16
    ensures EntryOk(0xF0 | c, RowF(c))
  {
    match c
    case 0 => case 1 => case 2 => case 3 => case 4 => case 5 => case 6 => case 7 =>
    case 8 => case 9 => case 10 => case 11 => case 12 => case 13 => case 14 => case _ =>
  }

  // ---------------------------------------------------------------------------------------------
  // What follows for the ciphers

  /** Every entry of every table is right. */
  lemma EntryIs(x: bv8)
    ensures EntryOk(x, EntryAt(x))
  {
    hide EntryOk, Row0, Row1, Row2, Row3, Row4, Row5, Row6, Row7, Row8, Row9, RowA, RowB, RowC, RowD, RowE, RowF;
    var c := x & 0xF;
    Nibbles(x);
    match x >> 4
    case 0 => Row0Ok(c);
    case 1 => Row1Ok(c);
    case 2 => Row2Ok(c);
    case 3 => Row3Ok(c);
    case 4 => Row4Ok(c);
    case 5 => Row5Ok(c);
    case 6 => Row6Ok(c);
    case 7 => Row7Ok(c);
    case 8 => Row8Ok(c);
    case 9 => Row9Ok(c);
    case 10 => RowAOk(c);
    case 11 => RowBOk(c);
    case 12 => RowCOk(c);
    case 13 => RowDOk(c);
    case 14 => RowEOk(c);
    case _ => RowFOk(c);
  }

  lemma Nibbles(x: bv8)
    ensures x & 0xF < 16 && x >> 4 < 16 && ((x >> 4) << 4) | (x & 0xF) == x
  {
  }

  /** AES_S and the tables AES_E1 to AES_E4. */
  function Shipped(): Tables {
    Tables(x => EntryAt(x).s, x => EntryAt(x).e1, x => EntryAt(x).e2, x => EntryAt(x).e3, x => EntryAt(x).e4)
  }

  /** S_Table, which aes-ideetron.c indexes with the two halves of the byte. */
  function STable(): SBox { x => EntryAt(x).sTable }

  /** The box is that of section 5.1.1 of FIPS 197, and the word tables are made from it. */
  lemma ShippedFromBox()
    ensures FromBox(Shipped()) && forall x :: Substitutes(x, Shipped().s(x)) && STable()(x) == Shipped().s(x)
  {
    hide EntryAt, Substitutes, Word4, Mul2, Xor8;
    forall x: bv8
      ensures Shipped().e1(x) == E1(Shipped().s, x) && Shipped().e2(x) == E2(Shipped().s, x)
      ensures Shipped().e3(x) == E3(Shipped().s, x) && Shipped().e4(x) == E4(Shipped().s, x)
      ensures Substitutes(x, Shipped().s(x)) && STable()(x) == Shipped().s(x)
    {
      EntryIs(x);
    }
  }

  /** The cipher depends on the entries of the box only. */
  lemma SameBox(s: SBox, s': SBox, key: Block, b: Block)
    requires forall x :: s(x) == s'(x)
    ensures AesCipher(s, key, b) == AesCipher(s', key, b)
  {
    hide Round, RoundKey, Rounds, ShiftRows, XorB;
    SameRounds(s, s', key, b, 9);
    SameKey(s, s', key, 10);
    assert SubBytes(s, Rounds(s, key, b, 9)) == SubBytes(s', Rounds(s', key, b, 9));
  }

  lemma {:induction false} SameRounds(s: SBox, s': SBox, key: Block, b: Block, i: nat)
    requires forall x :: s(x) == s'(x)
    ensures Rounds(s, key, b, i) == Rounds(s', key, b, i)
    decreases i
  {
    hide RoundKey, ShiftRows, MixColumns, XorB;
    if i > 0 {
      SameRounds(s, s', key, b, i - 1);
      SameKey(s, s', key, i);
      assert SubBytes(s, Rounds(s, key, b, i - 1)) == SubBytes(s', Rounds(s', key, b, i - 1));
    }
  }

  lemma {:induction false} SameKey(s: SBox, s': SBox, key: Block, i: nat)
    requires forall x :: s(x) == s'(x)
    ensures RoundKey(s, key, i) == RoundKey(s', key, i)
    decreases i
  {
    hide NextKeyByte;
    if i > 0 {
      SameKey(s, s', key, i - 1);
      var k := RoundKey(s, key, i - 1);
      forall n | 0 <= n < 16 ensures NextKeyByte(s, k, i, n) == NextKeyByte(s', k, i, n) {
        SameKeyByte(s, s', k, i, n);
      }
      assert NextKey(s, k, i) == NextKey(s', k, i);
    }
  }

  lemma {:induction false} SameKeyByte(s: SBox, s': SBox, k: Block, i: nat, n: nat)
    requires i > 0 && n < 16 && forall x :: s(x) == s'(x)
    ensures NextKeyByte(s, k, i, n) == NextKeyByte(s', k, i, n)
    decreases n
  {
    hide Xor8, Rcon;
    if n >= 4 {
      SameKeyByte(s, s', k, i, n - 4);
    } else {
      SameByte(s, s', k[12 + (n + 1) % 4]);
    }
  }

  lemma SameByte(s: SBox, s': SBox, x: bv8)
    requires forall x :: s(x) == s'(x)
    ensures s(x) == s'(x)
  {
  }

  /** For every key and block, the two block ciphers compute the same. */
  method BlockCiphersAgree(data: array<bv8>, key: array<bv8>, a0: Quad, aeskey: array<bv32>) returns (a: Quad)
    requires data.Length == 16 && key.Length == 16 && aeskey.Length == 44
    requires AuxBytes(aeskey[..4]) == key[..] && a0 == ToWords(data[..])
    modifies data, aeskey
    ensures data[..] == AesCipher(Shipped().s, old(key[..]), old(data[..]))
    ensures a == ToWords(data[..])
  {
    hide AesCipher, Shipped, STable, KeyWord, AuxBytes, FromBox, Substitutes, ToWords, EncQ;
    ghost var k, b := key[..], data[..];
    ShippedFromBox();
    AesRoundKeys(aeskey, Shipped().s);
    a := TableEncrypt(a0, aeskey, Shipped(), k);
    EncWords(x => AesCipher(Shipped().s, k, x), b);
    SameBox(STable(), Shipped().s, k, b);
    AesIdeetron.LmicAesEncrypt(data, key, STable());
  }
}
