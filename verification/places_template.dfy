/** The fixed text of the places overview page of bingo/generate_gallery_html.py: the page head,
    cut at its placeholders, and the page tail. */
module PlacesTemplate {
  // The head template, cut at its three placeholders (the title twice, then the subtitle).
  const OverviewBeforeTitle: string := @"<!DOCTYPE html>
<html lang=""nl"">
<head>
  <meta charset=""utf-8"">
  <meta name=""viewport"" content=""width=device-width, initial-scale=1"">
  <title>"

  const OverviewBeforeHeading: string := @"</title>
  <style>
    :root { --bg:#fafafa; --fg:#1a1a1a; --muted:#666; --accent:#1e88e5; --card-bg:#fff; --card-border:#eee; --maxw:1100px; }
    html,body{margin:0;padding:0;background:var(--bg);color:var(--fg);font-family:-apple-system,BlinkMacSystemFont,""Segoe UI"",Roboto,""Helvetica Neue"",Arial,system-ui,sans-serif;line-height:1.6}
    .container{max-width:var(--maxw);margin:0 auto;padding:24px 16px 64px}
    header{margin:0 0 24px;padding:24px 0 8px;border-bottom:1px solid var(--card-border)}
    header h1{margin:0 0 6px;font-size:28px;font-weight:700}
    header p{margin:0;color:var(--muted);font-size:14px}
    .grid{display:grid;grid-template-columns:repeat(auto-fill,minmax(260px,1fr));gap:14px}
    .card{display:flex;flex-direction:column;border:1px solid var(--card-border);border-radius:12px;background:var(--card-bg);overflow:hidden;box-shadow:0 2px 12px rgba(0,0,0,.05)}
    .thumb img{width:100%;height:180px;object-fit:cover;display:block;background:#ddd}
    .content{padding:10px 12px}
    .content h3{margin:0 0 6px;font-size:16px}
    .content p{margin:0;color:var(--muted);font-size:13px}
    a.card-link{text-decoration:none;color:inherit;display:block}
    .no-thumb{height:180px;background:linear-gradient(135deg,#e3f2fd,#bbdefb);display:flex;align-items:center;justify-content:center;color:#1e88e5;font-weight:600;font-size:18px}
    footer{margin-top:32px;color:var(--muted);font-size:12px}
  </style>
</head>
<body>
  <div class=""container"">
    <header>
      <h1>"

  const OverviewBeforeSubtitle: string := @"</h1>
      <p>"

  const OverviewAfterSubtitle: string := @"</p>
    </header>
    <main>
      <div class=""grid"">
"

  const OverviewTail: string := @"
      </div>
    </main>
    <footer>
      <p>Automatisch gegenereerd door generate_gallery_html.py.</p>
    </footer>
  </div>
</body>
</html>
"

  /** `HTML_HEAD.format(title=title, subtitle=subtitle)` */
  function OverviewHead(title: string, subtitle: string): string {
    OverviewBeforeTitle + title + OverviewBeforeHeading + title + OverviewBeforeSubtitle + subtitle
      + OverviewAfterSubtitle
  }
}
